/**
 `sql_tree_validator`: a walk that counts nodes and tracks depth in mutable fields, and stops at the
 first node beyond a limit. It is held against the preorder list of the tree's nodes.
 */
module TreeValidator {
  import opened Options
  import opened Regions
  import opened Ast
  import opened Results
  import opened VisitedTree

  // ---- the preorder of a tree and the judgement it deserves --------------------------------------

  datatype Visit = Visit(region: Region, depth: nat)

  function Preorder(t: Tree, depth: nat): seq<Visit> {
    match t
    case Node(_, region, children, _) => [Visit(region, depth)] + PreorderOf(children, depth + 1)
    case Group(members) => PreorderOf(members, depth)
  }

  function PreorderOf(ts: seq<Tree>, depth: nat): seq<Visit> {
    if ts == [] then [] else Preorder(ts[0], depth) + PreorderOf(ts[1..], depth)
  }

  function MaxDepth(vs: seq<Visit>): nat {
    if vs == [] then 0
    else
      var m := MaxDepth(vs[..|vs| - 1]);
      if m < vs[|vs| - 1].depth then vs[|vs| - 1].depth else m
  }

  // The k-th node of the walk exceeds a limit; 0 means that there is no limit.
  predicate Breaks(v: Visit, k: nat, nodeLimit: nat, depthLimit: nat) {
    (nodeLimit > 0 && k + 1 > nodeLimit) || (depthLimit > 0 && v.depth > depthLimit)
  }

  // The first node of the walk that exceeds a limit, or the length of the walk.
  function FirstBreak(vs: seq<Visit>, nodeLimit: nat, depthLimit: nat): (k: nat)
    ensures k <= |vs|
    ensures forall i | 0 <= i < k :: !Breaks(vs[i], i, nodeLimit, depthLimit)
    ensures k < |vs| ==> Breaks(vs[k], k, nodeLimit, depthLimit)
  {
    if vs == [] then 0
    else
      var n := |vs| - 1;
      var k := FirstBreak(vs[..n], nodeLimit, depthLimit);
      if k < n || Breaks(vs[n], n, nodeLimit, depthLimit) then k else n + 1
  }

  datatype Judgement = Judgement(diagnostic: Option<Diagnostic>, nodeCount: nat, maxDepth: nat)

  // The count is blamed first.
  function Blame(v: Visit, k: nat, nodeLimit: nat): Diagnostic {
    var reason := if nodeLimit > 0 && k + 1 > nodeLimit then NodeCount(k + 1) else NodeDepth(v.depth);
    Diagnostic(ExceedNumberOfElements, reason, v.region)
  }

  function Judge(vs: seq<Visit>, nodeLimit: nat, depthLimit: nat): Judgement {
    var k := FirstBreak(vs, nodeLimit, depthLimit);
    if k == |vs| then Judgement(None, |vs|, MaxDepth(vs))
    else Judgement(Some(Blame(vs[k], k, nodeLimit)), k + 1, MaxDepth(vs[..k + 1]))
  }

  // ---- the engine --------------------------------------------------------------------------------

  class Engine {
    const nodeLimit: nat
    const depthLimit: nat
    var nodeCount: nat
    var maxDepth: nat
    var result: Option<Diagnostic>

    // The nodes checked so far.
    ghost var trace: seq<Visit>

    ghost predicate Valid()
      reads this
    {
      && nodeCount == |trace| && maxDepth == MaxDepth(trace)
      && (result.None? ==> FirstBreak(trace, nodeLimit, depthLimit) == |trace|)
      && (result.Some? ==>
            && trace != [] && FirstBreak(trace, nodeLimit, depthLimit) == |trace| - 1
            && result.value == Blame(trace[|trace| - 1], |trace| - 1, nodeLimit))
    }

    constructor (nodeLimit: nat, depthLimit: nat)
      ensures Valid() && trace == [] && this.nodeLimit == nodeLimit && this.depthLimit == depthLimit
    {
      this.nodeLimit, this.depthLimit := nodeLimit, depthLimit;
      nodeCount, maxDepth, result, trace := 0, 0, None, [];
    }

    method Clear()
      modifies this
      ensures Valid() && trace == [] && result.None?
    {
      result, nodeCount, maxDepth, trace := None, 0, 0, [];
    }

    method Check(region: Region, depth: nat) returns (ok: bool)
      requires Valid() && result.None?
      modifies this
      ensures Valid() && ok == result.None?
      ensures trace == old(trace) + [Visit(region, depth)]
    {
      ghost var before := trace;
      trace := trace + [Visit(region, depth)];
      assert trace[..|trace| - 1] == before;
      nodeCount := nodeCount + 1;
      maxDepth := if depth < maxDepth then maxDepth else depth;
      if nodeLimit > 0 && nodeCount > nodeLimit {
        result := Some(Diagnostic(ExceedNumberOfElements, NodeCount(nodeCount), region));
        return false;
      }
      if depthLimit > 0 && depth > depthLimit {
        result := Some(Diagnostic(ExceedNumberOfElements, NodeDepth(depth), region));
        return false;
      }
      return true;
    }

    // One `accept` and the `operator()` it dispatches to.
    method Accept(t: Tree, depth: nat) returns (ok: bool)
      requires Valid() && result.None?
      modifies this
      ensures Valid() && ok == result.None?
      ensures ok ==> trace == old(trace) + Preorder(t, depth + 1)
      ensures !ok ==> old(trace) < trace <= old(trace) + Preorder(t, depth + 1)
      decreases t
    {
      match t {
        case Node(_, region, children, _) =>
          ghost var here, below := trace, PreorderOf(children, depth + 2);
          assert here + Preorder(t, depth + 1) == here + [Visit(region, depth + 1)] + below;
          ok := Check(region, depth + 1);
          if !ok { return; }
          ok := AcceptAll(children, depth + 1);
        case Group(members) =>
          ok := AcceptAll(members, depth);
      }
    }

    method AcceptAll(ts: seq<Tree>, depth: nat) returns (ok: bool)
      requires Valid() && result.None?
      modifies this
      ensures Valid() && ok == result.None?
      ensures ok ==> trace == old(trace) + PreorderOf(ts, depth + 1)
      ensures !ok ==> old(trace) < trace <= old(trace) + PreorderOf(ts, depth + 1)
      decreases ts
    {
      for i := 0 to |ts|
        invariant Valid() && result.None?
        invariant trace + PreorderOf(ts[i..], depth + 1) == old(trace) + PreorderOf(ts, depth + 1)
        invariant old(trace) <= trace
      {
        ghost var rest := PreorderOf(ts[i + 1..], depth + 1);
        assert ts[i..][1..] == ts[i + 1..];
        ghost var here := trace;
        ok := Accept(ts[i], depth);
        assert here + PreorderOf(ts[i..], depth + 1) == here + Preorder(ts[i], depth + 1) + rest;
        if !ok { return; }
      }
      return true;
    }

    method Process(ts: seq<Tree>, depth: nat) returns (r: Option<Diagnostic>)
      modifies this
      ensures Judgement(r, nodeCount, maxDepth) == Judge(PreorderOf(ts, depth + 1), nodeLimit, depthLimit)
    {
      Clear();
      var ok := AcceptAll(ts, depth);
      r := result;
      JudgedByPrefix(trace, PreorderOf(ts, depth + 1), nodeLimit, depthLimit);
    }
  }

  // Once a node of a prefix exceeds a limit, the rest of the walk does not matter.
  lemma {:induction false} JudgedByPrefix(vs: seq<Visit>, all: seq<Visit>, nodeLimit: nat, depthLimit: nat)
    requires vs <= all
    requires vs == all || FirstBreak(vs, nodeLimit, depthLimit) < |vs|
    ensures FirstBreak(all, nodeLimit, depthLimit) == FirstBreak(vs, nodeLimit, depthLimit) && all[..|vs|] == vs
  {
    var k, m := FirstBreak(all, nodeLimit, depthLimit), FirstBreak(vs, nodeLimit, depthLimit);
    assert forall i | 0 <= i < |vs| :: all[i] == vs[i];
  }

  // ---- the validator -----------------------------------------------------------------------------

  class SqlTreeValidator {
    const nodeLimit: nat
    const depthLimit: nat
    var lastNodeCount: nat
    var lastMaxDepth: nat

    constructor (nodeLimit: nat, depthLimit: nat)
      ensures this.nodeLimit == nodeLimit && this.depthLimit == depthLimit
      ensures lastNodeCount == 0 && lastMaxDepth == 0
    {
      this.nodeLimit, this.depthLimit := nodeLimit, depthLimit;
      lastNodeCount, lastMaxDepth := 0, 0;
    }

    predicate Enabled() { nodeLimit > 0 || depthLimit > 0 }

    method Validate(unit: CompilationUnit) returns (r: Option<Diagnostic>)
      modifies this
      ensures Judgement(r, lastNodeCount, lastMaxDepth) == Validation(unit.statements, nodeLimit, depthLimit)
    {
      if !Enabled() {
        lastNodeCount, lastMaxDepth := 0, 0;
        return None;
      }
      var e := new Engine(nodeLimit, depthLimit);
      r := e.Process(StatementTrees(unit.statements), 0);
      lastNodeCount, lastMaxDepth := e.nodeCount, e.maxDepth;
    }
  }

  function Validation(statements: seq<Statement>, nodeLimit: nat, depthLimit: nat): Judgement {
    if nodeLimit == 0 && depthLimit == 0 then Judgement(None, 0, 0)
    else Judge(PreorderOf(StatementTrees(statements), 1), nodeLimit, depthLimit)
  }

  // ---- what the judgement means ------------------------------------------------------------------

  lemma {:induction false} MaxDepthConcat(a: seq<Visit>, b: seq<Visit>)
    ensures MaxDepth(a + b) == if MaxDepth(a) < MaxDepth(b) then MaxDepth(b) else MaxDepth(a)
  {
    if b == [] {
      assert a + b == a;
    } else {
      assert (a + b)[..|a + b| - 1] == a + b[..|b| - 1];
      MaxDepthConcat(a, b[..|b| - 1]);
    }
  }

  lemma {:induction false} MaxDepthIsMax(vs: seq<Visit>)
    ensures forall i | 0 <= i < |vs| :: vs[i].depth <= MaxDepth(vs)
    ensures MaxDepth(vs) > 0 ==> exists i | 0 <= i < |vs| :: vs[i].depth == MaxDepth(vs)
  {
    if vs != [] { MaxDepthIsMax(vs[..|vs| - 1]); }
  }

  // The walk of a tree is as long as its node count and as deep as its height.
  lemma {:induction false} PreorderMeasures(t: Tree, depth: nat)
    ensures |Preorder(t, depth)| == Nodes(t)
    ensures MaxDepth(Preorder(t, depth)) == if Height(t) == 0 then 0 else depth + Height(t) - 1
  {
    match t
    case Node(_, region, children, _) =>
      PreorderOfMeasures(children, depth + 1);
      MaxDepthConcat([Visit(region, depth)], PreorderOf(children, depth + 1));
    case Group(members) => PreorderOfMeasures(members, depth);
  }

  lemma {:induction false} PreorderOfMeasures(ts: seq<Tree>, depth: nat)
    ensures |PreorderOf(ts, depth)| == NodesOf(ts)
    ensures MaxDepth(PreorderOf(ts, depth)) == if HeightOf(ts) == 0 then 0 else depth + HeightOf(ts) - 1
  {
    if ts != [] {
      PreorderMeasures(ts[0], depth);
      PreorderOfMeasures(ts[1..], depth);
      MaxDepthConcat(Preorder(ts[0], depth), PreorderOf(ts[1..], depth));
    }
  }

  // A step of the walk goes at most one level deeper.
  ghost predicate DescendsGently(vs: seq<Visit>, depth: nat) {
    && (forall i | 0 < i < |vs| :: vs[i].depth <= vs[i - 1].depth + 1)
    && (forall i | 0 <= i < |vs| :: depth <= vs[i].depth)
    && (vs != [] ==> vs[0].depth == depth)
  }

  lemma {:induction false} PreorderDescendsGently(t: Tree, depth: nat)
    ensures DescendsGently(Preorder(t, depth), depth)
  {
    match t
    case Node(_, _, children, _) => PreorderOfDescendsGently(children, depth + 1);
    case Group(members) => PreorderOfDescendsGently(members, depth);
  }

  lemma {:induction false} PreorderOfDescendsGently(ts: seq<Tree>, depth: nat)
    ensures DescendsGently(PreorderOf(ts, depth), depth)
  {
    if ts != [] {
      PreorderDescendsGently(ts[0], depth);
      PreorderOfDescendsGently(ts[1..], depth);
    }
  }

  // A walk is rejected exactly when the tree has too many nodes or is too deep; otherwise the
  // reported measures are its node count and height.
  lemma {:induction false} RejectsExactlyBeyondLimits(ts: seq<Tree>, nodeLimit: nat, depthLimit: nat)
    ensures Judge(PreorderOf(ts, 1), nodeLimit, depthLimit).diagnostic.Some?
       <==> (nodeLimit > 0 && NodesOf(ts) > nodeLimit) || (depthLimit > 0 && HeightOf(ts) > depthLimit)
    ensures Judge(PreorderOf(ts, 1), nodeLimit, depthLimit).diagnostic.None?
        ==> Judge(PreorderOf(ts, 1), nodeLimit, depthLimit) == Judgement(None, NodesOf(ts), HeightOf(ts))
  {
    var vs := PreorderOf(ts, 1);
    var k := FirstBreak(vs, nodeLimit, depthLimit);
    PreorderOfMeasures(ts, 1);
    MaxDepthIsMax(vs);
    if nodeLimit > 0 && |vs| > nodeLimit {
      assert Breaks(vs[nodeLimit], nodeLimit, nodeLimit, depthLimit);
    } else if depthLimit > 0 && MaxDepth(vs) > depthLimit {
      var i :| 0 <= i < |vs| && vs[i].depth == MaxDepth(vs);
      assert Breaks(vs[i], i, nodeLimit, depthLimit);
    }
  }

  // A rejection names the first node in preorder beyond a limit, blaming the count before the
  // depth, and by then the walk has gone at most one node or one level too far.
  lemma {:induction false} RejectionIsPrompt(ts: seq<Tree>, nodeLimit: nat, depthLimit: nat) returns (k: nat)
    requires Judge(PreorderOf(ts, 1), nodeLimit, depthLimit).diagnostic.Some?
    ensures k < |PreorderOf(ts, 1)|
    ensures var j := Judge(PreorderOf(ts, 1), nodeLimit, depthLimit); var v := PreorderOf(ts, 1)[k];
            && j.diagnostic.value.code == ExceedNumberOfElements && j.diagnostic.value.region == v.region
            && j.diagnostic.value.reason
               == (if nodeLimit > 0 && k + 1 > nodeLimit then NodeCount(k + 1) else NodeDepth(v.depth))
            && Breaks(v, k, nodeLimit, depthLimit)
            && (forall i | 0 <= i < k :: !Breaks(PreorderOf(ts, 1)[i], i, nodeLimit, depthLimit))
            && j.nodeCount == k + 1 && (nodeLimit > 0 ==> j.nodeCount <= nodeLimit + 1)
            && (depthLimit > 0 ==> j.maxDepth <= depthLimit + 1)
  {
    var vs := PreorderOf(ts, 1);
    k := FirstBreak(vs, nodeLimit, depthLimit);
    if nodeLimit > 0 && k > 0 { assert !Breaks(vs[k - 1], k - 1, nodeLimit, depthLimit); }
    if depthLimit > 0 {
      PreorderOfDescendsGently(ts, 1);
      forall i | 0 <= i <= k ensures vs[i].depth <= depthLimit + 1 {
        if i > 0 { assert !Breaks(vs[i - 1], i - 1, nodeLimit, depthLimit); }
      }
      DepthBound(vs[..k + 1], depthLimit + 1);
    }
  }

  lemma {:induction false} DepthBound(vs: seq<Visit>, bound: nat)
    requires forall v <- vs :: v.depth <= bound
    ensures MaxDepth(vs) <= bound
  {
    if vs != [] { DepthBound(vs[..|vs| - 1], bound); }
  }

  // The second limit is at least as generous as the first.
  predicate Weaker(limit: nat, other: nat) { other == 0 || (limit > 0 && limit <= other) }

  // Loosening the limits never turns acceptance into rejection.
  lemma {:induction false} AcceptanceIsMonotone(statements: seq<Statement>, n: nat, d: nat, n': nat, d': nat)
    requires Validation(statements, n, d).diagnostic.None? && Weaker(n, n') && Weaker(d, d')
    ensures Validation(statements, n', d').diagnostic.None?
  {
    RejectsExactlyBeyondLimits(StatementTrees(statements), n, d);
    RejectsExactlyBeyondLimits(StatementTrees(statements), n', d');
  }

  // Any two accepting runs, however their limits compare, report the same measures if and only if
  // both measure or neither does, or there is nothing to measure.
  lemma {:induction false} AcceptingRunsAgree(statements: seq<Statement>, n: nat, d: nat, n': nat, d': nat)
    requires Validation(statements, n, d).diagnostic.None? && Validation(statements, n', d').diagnostic.None?
    ensures Validation(statements, n, d) == Validation(statements, n', d')
       <==> ((n > 0 || d > 0) == (n' > 0 || d' > 0) || statements == [])
  {
    RejectsExactlyBeyondLimits(StatementTrees(statements), n, d);
    RejectsExactlyBeyondLimits(StatementTrees(statements), n', d');
    assert statements == [] ==> StatementTrees(statements) == [];
    if statements != [] { StatementsHaveNodes(statements); }
  }

  lemma {:induction false} StatementsHaveNodes(statements: seq<Statement>)
    requires statements != []
    ensures NodesOf(StatementTrees(statements)) > 0
  {
    assert StatementTrees(statements)[0] == StatementTree(statements[0]);
    assert StatementTree(statements[0]).Node?;
  }
}
