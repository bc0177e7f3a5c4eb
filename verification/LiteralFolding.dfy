/**
 `try_fold_literal`: a sign in front of an unsigned numeric literal becomes part of the literal. The
 grammar calls it on every unary plus and minus as soon as the node is built, in queries and
 statements of any kind; here it may be called at any choice of positions of any tree.
 */
module LiteralFolding {
  import opened Options
  import opened Regions
  import opened Ast
  import opened VisitedTree

  function TryFoldLiteral(expression: Scalar): Scalar {
    if !expression.UnaryExpression? then expression
    else if expression.operator != UnaryPlus && expression.operator != UnaryMinus then expression
    else if !expression.operand.LiteralExpression? then expression
    else if !expression.operand.value.Numeric? then expression
    else if expression.operand.value.sign.Some? then expression
    else
      var sign := if expression.operator == UnaryPlus then Plus else Minus;
      var value := expression.operand.value.(sign := Some((sign, expression.operatorRegion)));
      LiteralExpression(value, expression.region)
  }

  // A plus or minus over an unsigned number becomes that number with the sign, which lies where the
  // operator was; the literal takes the place of the whole expression. Nothing else changes.
  lemma {:induction false} FoldWritesTheSign(operator: UnaryOperator, operatorRegion: Region, kind: NumericKind,
                                             digits: string, number: Region, operand: Region, whole: Region)
    requires operator.UnaryPlus? || operator.UnaryMinus?
    ensures var literal := LiteralExpression(Numeric(kind, None, digits, number), operand);
            var sign := if operator.UnaryPlus? then Plus else Minus;
            TryFoldLiteral(UnaryExpression(operator, operatorRegion, literal, whole))
            == LiteralExpression(Numeric(kind, Some((sign, operatorRegion)), digits, number), whole)
  {
  }

  lemma {:induction false} FoldChangesNothingElse(e: Scalar)
    ensures TryFoldLiteral(e) == e
       <==> !(e.UnaryExpression? && (e.operator.UnaryPlus? || e.operator.UnaryMinus?)
              && e.operand.LiteralExpression? && e.operand.value.Numeric? && e.operand.value.sign.None?)
  {
  }

  // ---- the same on the tree of the expression ----------------------------------------------------

  predicate IsSign(head: Label) { head.UnaryLabel? && (head.operator.UnaryPlus? || head.operator.UnaryMinus?) }

  predicate IsUnsignedNumber(t: Tree) {
    && t.Node? && t.head.LiteralExpressionLabel? && |t.children| == 1 && t.skipped == []
    && var number := t.children[0];
    number.Node? && number.head.NumericLabel? && number.head.sign.None? && number == Leaf(number.head, number.region)
  }

  // A unary plus or minus directly over an unsigned numeric literal.
  predicate Foldable(t: Tree) {
    t.Node? && IsSign(t.head) && |t.children| == 1 && t.skipped == [] && IsUnsignedNumber(t.children[0])
  }

  // The kind and digits of the number are kept, the operator's sign is written where the operator
  // stood, and the literal takes over the region of the whole expression.
  function FoldNode(t: Tree): Tree {
    if !Foldable(t) then t
    else
      var number := t.children[0].children[0];
      var sign := (if t.head.operator.UnaryMinus? then Minus else Plus, t.head.operatorRegion);
      Branch(LiteralExpressionLabel, t.region,
             [Leaf(NumericLabel(number.head.kind, Some(sign), number.head.unsignedValue), number.region)])
  }

  lemma {:induction false} FoldMovesTheSign(e: Scalar)
    ensures ScalarTree(TryFoldLiteral(e)) == FoldNode(ScalarTree(e))
    ensures TryFoldLiteral(e) != e <==> Foldable(ScalarTree(e))
  {
    if e.UnaryExpression? {
      assert ScalarFields(e) == [ScalarTree(e.operand)];
      NumbersAreLiterals(e.operand);
      if Foldable(ScalarTree(e)) {
        assert ScalarFields(TryFoldLiteral(e)) == [LiteralTree(TryFoldLiteral(e).value)];
      }
    }
  }

  lemma {:induction false} NumbersAreLiterals(e: Scalar)
    ensures IsUnsignedNumber(ScalarTree(e)) <==> e.LiteralExpression? && e.value.Numeric? && e.value.sign.None?
    ensures e.LiteralExpression? ==> ScalarTree(e).children == [LiteralTree(e.value)]
  {
    if e.LiteralExpression? { assert ScalarFields(e) == [LiteralTree(e.value)]; }
  }

  // ---- folding at chosen positions ---------------------------------------------------------------

  // A position is the path of field and element numbers leading to it; skipped fields come last.
  type Path = seq<nat>

  // Fold at every position that `chosen` picks, operands first.
  function FoldAt(t: Tree, chosen: Path -> bool, path: Path): Tree
    decreases t, 1
  {
    var rebuilt := Rebuilt(t, chosen, path);
    if chosen(path) then FoldNode(rebuilt) else rebuilt
  }

  function Rebuilt(t: Tree, chosen: Path -> bool, path: Path): Tree
    decreases t, 0
  {
    match t
    case Node(head, region, children, skipped) =>
      Node(head, region, FoldEach(children, chosen, path, 0), FoldEach(skipped, chosen, path, |children|))
    case Group(members) => Group(FoldEach(members, chosen, path, 0))
  }

  function FoldEach(ts: seq<Tree>, chosen: Path -> bool, path: Path, first: nat): (r: seq<Tree>)
    ensures |r| == |ts|
  {
    seq(|ts|, i requires 0 <= i < |ts| => FoldAt(ts[i], chosen, path + [first + i]))
  }

  // Fold wherever there is something to fold.
  function FoldAll(t: Tree): Tree {
    match t
    case Node(head, region, children, skipped) => FoldNode(Node(head, region, FoldAlls(children), FoldAlls(skipped)))
    case Group(members) => Group(FoldAlls(members))
  }

  function FoldAlls(ts: seq<Tree>): seq<Tree> {
    seq(|ts|, i requires 0 <= i < |ts| => FoldAll(ts[i]))
  }

  function Everywhere(path: Path): bool { true }

  lemma {:induction false} NodesStayInPlace(t: Tree, chosen: Path -> bool, path: Path)
    ensures t.Node? ==> FoldAt(t, chosen, path).Node? && FoldAt(t, chosen, path).region == t.region
    ensures t.Node? ==> FoldAll(t).Node? && FoldAll(t).region == t.region
  {
  }

  lemma {:induction false} FoldAllIsEverywhere(t: Tree, path: Path)
    ensures FoldAt(t, Everywhere, path) == FoldAll(t)
    decreases t, 1
  {
    match t
    case Node(_, _, children, skipped) =>
      FoldAllsIsEverywhere(children, path, 0);
      FoldAllsIsEverywhere(skipped, path, |children|);
    case Group(members) => FoldAllsIsEverywhere(members, path, 0);
  }

  lemma {:induction false} FoldAllsIsEverywhere(ts: seq<Tree>, path: Path, first: nat)
    ensures FoldEach(ts, Everywhere, path, first) == FoldAlls(ts)
    decreases ts, 0
  {
    forall i | 0 <= i < |ts| ensures FoldAt(ts[i], Everywhere, path + [first + i]) == FoldAll(ts[i]) {
      FoldAllIsEverywhere(ts[i], path + [first + i]);
    }
  }

  // ---- the meaning of a tree ---------------------------------------------------------------------

  datatype Value<V> = Number(number: real) | Other(value: V)

  // A meaning may depend on a context, such as the row under which an expression is evaluated.
  type Meaning<!R(!new), V> = imap<R, Value<V>>

  // How digits are read as numbers, and what every node other than a number and a sign, and every
  // list, makes of the meanings below it: any compositional meaning at all.
  datatype Semantics<!R(!new), !V> = Semantics(
    read: (NumericKind, string) -> real,
    combine: (R, Label, Region, seq<Meaning<R, V>>, seq<Meaning<R, V>>) -> Value<V>,
    gather: (R, seq<Meaning<R, V>>) -> Value<V>)

  function Signed(negative: bool, r: real): real { if negative then -r else r }

  // A literal expression means its literal, and a sign over a number is arithmetic.
  ghost function NodeValue<R(!new), V>(context: R, head: Label, region: Region, parts: seq<Meaning<R, V>>,
                                       others: seq<Meaning<R, V>>, m: Semantics<R, V>): Value<V>
  {
    var part := if |parts| == 1 && context in parts[0] then Some(parts[0][context]) else None;
    if head.NumericLabel? then
      Number(Signed(head.sign.Some? && head.sign.value.0 == Minus, m.read(head.kind, head.unsignedValue)))
    else if head.LiteralExpressionLabel? && part.Some? then part.value
    else if IsSign(head) && part.Some? && part.value.Number? then
      Number(Signed(head.operator.UnaryMinus?, part.value.number))
    else m.combine(context, head, region, parts, others)
  }

  ghost function Eval<R(!new), V>(t: Tree, m: Semantics<R, V>): (r: Meaning<R, V>)
    ensures forall context: R :: context in r
  {
    match t
    case Node(head, region, children, skipped) =>
      var parts, others := EvalAll(children, m), EvalAll(skipped, m);
      (imap context: R :: NodeValue(context, head, region, parts, others, m))
    case Group(members) =>
      var parts := EvalAll(members, m);
      (imap context: R :: m.gather(context, parts))
  }

  ghost function EvalAll<R(!new), V>(ts: seq<Tree>, m: Semantics<R, V>): (r: seq<Meaning<R, V>>)
    ensures |r| == |ts|
  {
    seq(|ts|, i requires 0 <= i < |ts| => Eval(ts[i], m))
  }

  lemma {:induction false} FoldingKeepsOneMeaning<R(!new), V>(t: Tree, m: Semantics<R, V>)
    ensures Eval(FoldNode(t), m) == Eval(t, m)
  {
    if Foldable(t) {
      var number := t.children[0].children[0];
      assert EvalAll(t.children, m)[0] == Eval(t.children[0], m) == Eval(number, m);
      assert FoldNode(t).children[0].head.NumericLabel?;
      assert EvalAll(FoldNode(t).children, m)[0] == Eval(FoldNode(t).children[0], m);
    }
  }

  // Folding anywhere never changes the meaning, in any context and any compositional semantics.
  lemma {:induction false} FoldingKeepsTheMeaning<R(!new), V>(t: Tree, chosen: Path -> bool, path: Path,
                                                             m: Semantics<R, V>)
    ensures Eval(FoldAt(t, chosen, path), m) == Eval(t, m)
    decreases t, 1
  {
    match t {
      case Node(head, region, children, skipped) =>
        FoldingKeepsTheMeanings(children, chosen, path, 0, m);
        FoldingKeepsTheMeanings(skipped, chosen, path, |children|, m);
      case Group(members) => FoldingKeepsTheMeanings(members, chosen, path, 0, m);
    }
    assert Eval(Rebuilt(t, chosen, path), m) == Eval(t, m);
    FoldingKeepsOneMeaning(Rebuilt(t, chosen, path), m);
  }

  lemma {:induction false} FoldingKeepsTheMeanings<R(!new), V>(ts: seq<Tree>, chosen: Path -> bool, path: Path,
                                                              first: nat, m: Semantics<R, V>)
    ensures EvalAll(FoldEach(ts, chosen, path, first), m) == EvalAll(ts, m)
    decreases ts, 0
  {
    forall i | 0 <= i < |ts| ensures Eval(FoldEach(ts, chosen, path, first)[i], m) == Eval(ts[i], m) {
      FoldingKeepsTheMeaning(ts[i], chosen, path + [first + i], m);
    }
  }

  // ---- normal forms ------------------------------------------------------------------------------

  // No sign stands directly over an unsigned number, anywhere.
  predicate Normal(t: Tree) {
    match t
    case Node(_, _, children, skipped) => !Foldable(t) && NormalAll(children) && NormalAll(skipped)
    case Group(members) => NormalAll(members)
  }

  predicate NormalAll(ts: seq<Tree>) { forall i | 0 <= i < |ts| :: Normal(ts[i]) }

  lemma {:induction false} FoldingEverywhereNormalizes(t: Tree)
    ensures Normal(FoldAll(t))
    decreases t, 1
  {
    match t
    case Node(head, region, children, skipped) =>
      NormalizesAll(children);
      NormalizesAll(skipped);
      var rebuilt := Node(head, region, FoldAlls(children), FoldAlls(skipped));
      if Foldable(rebuilt) { assert NormalAll(FoldNode(rebuilt).children[0].children); }
    case Group(members) => NormalizesAll(members);
  }

  lemma {:induction false} NormalizesAll(ts: seq<Tree>)
    ensures NormalAll(FoldAlls(ts))
    decreases ts, 0
  {
    forall i | 0 <= i < |ts| ensures Normal(FoldAlls(ts)[i]) { FoldingEverywhereNormalizes(ts[i]); }
  }

  lemma {:induction false} NormalIsFixed(t: Tree, chosen: Path -> bool, path: Path)
    requires Normal(t)
    ensures FoldAt(t, chosen, path) == t
    decreases t, 1
  {
    match t {
      case Node(_, _, children, skipped) =>
        NormalAllAreFixed(children, chosen, path, 0);
        NormalAllAreFixed(skipped, chosen, path, |children|);
      case Group(members) => NormalAllAreFixed(members, chosen, path, 0);
    }
    assert Rebuilt(t, chosen, path) == t;
  }

  lemma {:induction false} NormalAllAreFixed(ts: seq<Tree>, chosen: Path -> bool, path: Path, first: nat)
    requires NormalAll(ts)
    ensures FoldEach(ts, chosen, path, first) == ts
    decreases ts, 0
  {
    forall i | 0 <= i < |ts| ensures FoldEach(ts, chosen, path, first)[i] == ts[i] {
      NormalIsFixed(ts[i], chosen, path + [first + i]);
    }
  }

  // Folding everywhere is idempotent, and leaves alone exactly the trees in normal form.
  lemma {:induction false} FoldAllIsIdempotent(t: Tree)
    ensures FoldAll(FoldAll(t)) == FoldAll(t)
    ensures FoldAll(t) == t <==> Normal(t)
  {
    FoldingEverywhereNormalizes(t);
    NormalIsFixed(FoldAll(t), Everywhere, []);
    FoldAllIsEverywhere(FoldAll(t), []);
    if Normal(t) {
      NormalIsFixed(t, Everywhere, []);
      FoldAllIsEverywhere(t, []);
    }
  }

  // ---- what folding conserves --------------------------------------------------------------------

  lemma {:induction false} FoldEachTail(ts: seq<Tree>, chosen: Path -> bool, path: Path, first: nat)
    requires ts != []
    ensures FoldEach(ts, chosen, path, first)[0] == FoldAt(ts[0], chosen, path + [first])
    ensures FoldEach(ts, chosen, path, first)[1..] == FoldEach(ts[1..], chosen, path, first + 1)
  {
    assert path + [first + 0] == path + [first];
  }

  // How often a sign is written in a tree, as an operator or as part of a literal.
  function Signs(t: Tree, sign: Sign): nat {
    match t
    case Node(head, _, children, skipped) =>
      (if OwnSign(head) == Some(sign) then 1 else 0) + SignsOf(children, sign) + SignsOf(skipped, sign)
    case Group(members) => SignsOf(members, sign)
  }

  function SignsOf(ts: seq<Tree>, sign: Sign): nat {
    if ts == [] then 0 else Signs(ts[0], sign) + SignsOf(ts[1..], sign)
  }

  function OwnSign(head: Label): Option<Sign> {
    if head.UnaryLabel? && head.operator.UnaryPlus? then Some(Plus)
    else if head.UnaryLabel? && head.operator.UnaryMinus? then Some(Minus)
    else if head.NumericLabel? && head.sign.Some? then Some(head.sign.value.0)
    else None
  }

  lemma {:induction false} SignsOfOne(t: Tree, sign: Sign)
    ensures SignsOf([t], sign) == Signs(t, sign)
  {
    assert [t][1..] == [];
  }

  lemma {:induction false} FoldingKeepsOwnSign(t: Tree, sign: Sign)
    ensures Signs(FoldNode(t), sign) == Signs(t, sign)
  {
    if Foldable(t) {
      var operand, number, folded := t.children[0], t.children[0].children[0], FoldNode(t).children[0];
      assert t.children == [operand] && operand.children == [number];
      SignsOfOne(operand, sign);
      SignsOfOne(number, sign);
      SignsOfOne(folded, sign);
    }
  }

  // No sign is dropped or doubled, wherever folding happens: a double negation stays one.
  lemma {:induction false} FoldingKeepsSigns(t: Tree, chosen: Path -> bool, path: Path, sign: Sign)
    ensures Signs(FoldAt(t, chosen, path), sign) == Signs(t, sign)
    decreases t, 1
  {
    match t {
      case Node(_, _, children, skipped) =>
        FoldingKeepsSignsOf(children, chosen, path, 0, sign);
        FoldingKeepsSignsOf(skipped, chosen, path, |children|, sign);
      case Group(members) => FoldingKeepsSignsOf(members, chosen, path, 0, sign);
    }
    FoldingKeepsOwnSign(Rebuilt(t, chosen, path), sign);
  }

  lemma {:induction false} FoldingKeepsSignsOf(ts: seq<Tree>, chosen: Path -> bool, path: Path, first: nat, sign: Sign)
    ensures SignsOf(FoldEach(ts, chosen, path, first), sign) == SignsOf(ts, sign)
    decreases ts, 0
  {
    if ts != [] {
      FoldingKeepsSigns(ts[0], chosen, path + [first], sign);
      FoldingKeepsSignsOf(ts[1..], chosen, path, first + 1, sign);
      FoldEachTail(ts, chosen, path, first);
    }
  }

  // ---- what folding does to the measures of the validator -----------------------------------------

  // How many times folding fires at nodes that the validator visits.
  function Fires(t: Tree, chosen: Path -> bool, path: Path): nat {
    match t
    case Node(_, _, children, _) =>
      FiresIn(children, chosen, path, 0) + if chosen(path) && Foldable(Rebuilt(t, chosen, path)) then 1 else 0
    case Group(members) => FiresIn(members, chosen, path, 0)
  }

  function FiresIn(ts: seq<Tree>, chosen: Path -> bool, path: Path, first: nat): nat {
    if ts == [] then 0 else Fires(ts[0], chosen, path + [first]) + FiresIn(ts[1..], chosen, path, first + 1)
  }

  // A fold that fires makes one node out of two, and the tree one level lower.
  lemma {:induction false} FoldRemovesOneNode(t: Tree)
    ensures Nodes(FoldNode(t)) == Nodes(t) - if Foldable(t) then 1 else 0
    ensures Height(FoldNode(t)) == Height(t) - if Foldable(t) then 1 else 0
  {
    if Foldable(t) {
      var operand, number, folded := t.children[0], t.children[0].children[0], FoldNode(t).children[0];
      assert t.children == [operand] && operand.children == [number];
      OneTree(operand);
      OneTree(number);
      OneTree(folded);
    }
  }

  // Folding anywhere lowers the node count by exactly the number of folds that fire.
  lemma {:induction false} FoldingRemovesNodes(t: Tree, chosen: Path -> bool, path: Path)
    ensures Nodes(FoldAt(t, chosen, path)) + Fires(t, chosen, path) == Nodes(t)
    ensures Height(FoldAt(t, chosen, path)) <= Height(t)
    decreases t, 1
  {
    match t {
      case Node(_, _, children, _) => FoldingRemovesNodesOf(children, chosen, path, 0);
      case Group(members) => FoldingRemovesNodesOf(members, chosen, path, 0);
    }
    FoldRemovesOneNode(Rebuilt(t, chosen, path));
  }

  lemma {:induction false} FoldingRemovesNodesOf(ts: seq<Tree>, chosen: Path -> bool, path: Path, first: nat)
    ensures NodesOf(FoldEach(ts, chosen, path, first)) + FiresIn(ts, chosen, path, first) == NodesOf(ts)
    ensures HeightOf(FoldEach(ts, chosen, path, first)) <= HeightOf(ts)
    decreases ts, 0
  {
    if ts != [] {
      FoldingRemovesNodes(ts[0], chosen, path + [first]);
      FoldingRemovesNodesOf(ts[1..], chosen, path, first + 1);
      FoldEachTail(ts, chosen, path, first);
    }
  }
}
