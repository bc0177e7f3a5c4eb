/**
 The walk of `sql_tree_validator`, said of the syntax alone: for every kind of node, the visit of the
 node itself, then those of the fields its visitor accepts, each once, in order and one level deeper.
 Lists, optional fields and clauses add only what they hold.
 */
module SyntaxWalk {
  import opened Options
  import opened Regions
  import opened Ast
  import opened VisitedTree
  import opened TreeValidator

  lemma {:induction false} Walk1(a: Tree, d: nat)
    ensures PreorderOf([a], d) == Preorder(a, d)
    ensures NodesOf([a]) == Nodes(a)
  {
    assert [a][1..] == [];
  }

  lemma {:induction false} Walk2(a: Tree, b: Tree, d: nat)
    ensures PreorderOf([a, b], d) == Preorder(a, d) + Preorder(b, d)
    ensures NodesOf([a, b]) == Nodes(a) + Nodes(b)
  {
    assert [a, b][1..] == [b];
    Walk1(b, d);
  }

  lemma {:induction false} Walk3(a: Tree, b: Tree, c: Tree, d: nat)
    ensures PreorderOf([a, b, c], d) == Preorder(a, d) + Preorder(b, d) + Preorder(c, d)
    ensures NodesOf([a, b, c]) == Nodes(a) + Nodes(b) + Nodes(c)
  {
    assert [a, b, c][1..] == [b, c];
    Walk2(b, c, d);
  }

  lemma {:induction false} Walk4(a: Tree, b: Tree, c: Tree, e: Tree, d: nat)
    ensures PreorderOf([a, b, c, e], d) == Preorder(a, d) + Preorder(b, d) + Preorder(c, d) + Preorder(e, d)
    ensures NodesOf([a, b, c, e]) == Nodes(a) + Nodes(b) + Nodes(c) + Nodes(e)
  {
    assert [a, b, c, e][1..] == [b, c, e];
    Walk3(b, c, e, d);
    var p, x1 := Preorder(a, d), Preorder(b, d);
    var x2 := x1 + Preorder(c, d);
    assert p + x2 == p + x1 + Preorder(c, d);
    var x3 := x2 + Preorder(e, d);
    assert p + x3 == p + x2 + Preorder(e, d);
  }

  lemma {:induction false} Walk5(a: Tree, b: Tree, c: Tree, e: Tree, f: Tree, d: nat)
    ensures PreorderOf([a, b, c, e, f], d)
         == Preorder(a, d) + Preorder(b, d) + Preorder(c, d) + Preorder(e, d) + Preorder(f, d)
    ensures NodesOf([a, b, c, e, f]) == Nodes(a) + Nodes(b) + Nodes(c) + Nodes(e) + Nodes(f)
  {
    assert [a, b, c, e, f][1..] == [b, c, e, f];
    Walk4(b, c, e, f, d);
    var p, x1 := Preorder(a, d), Preorder(b, d);
    var x2 := x1 + Preorder(c, d);
    assert p + x2 == p + x1 + Preorder(c, d);
    var x3 := x2 + Preorder(e, d);
    assert p + x3 == p + x2 + Preorder(e, d);
    var x4 := x3 + Preorder(f, d);
    assert p + x4 == p + x3 + Preorder(f, d);
  }

  lemma {:induction false} Walk6(a: Tree, b: Tree, c: Tree, e: Tree, f: Tree, g: Tree, d: nat)
    ensures PreorderOf([a, b, c, e, f, g], d)
         == Preorder(a, d) + Preorder(b, d) + Preorder(c, d) + Preorder(e, d) + Preorder(f, d) + Preorder(g, d)
    ensures NodesOf([a, b, c, e, f, g]) == Nodes(a) + Nodes(b) + Nodes(c) + Nodes(e) + Nodes(f) + Nodes(g)
  {
    assert [a, b, c, e, f, g][1..] == [b, c, e, f, g];
    Walk5(b, c, e, f, g, d);
    var p, x1 := Preorder(a, d), Preorder(b, d);
    var x2 := x1 + Preorder(c, d);
    assert p + x2 == p + x1 + Preorder(c, d);
    var x3 := x2 + Preorder(e, d);
    assert p + x3 == p + x2 + Preorder(e, d);
    var x4 := x3 + Preorder(f, d);
    assert p + x4 == p + x3 + Preorder(f, d);
    var x5 := x4 + Preorder(g, d);
    assert p + x5 == p + x4 + Preorder(g, d);
  }

  lemma {:induction false} Walk7(a: Tree, b: Tree, c: Tree, e: Tree, f: Tree, g: Tree, h: Tree, d: nat)
    ensures PreorderOf([a, b, c, e, f, g, h], d)
         == Preorder(a, d) + Preorder(b, d) + Preorder(c, d) + Preorder(e, d) + Preorder(f, d) + Preorder(g, d)
          + Preorder(h, d)
    ensures NodesOf([a, b, c, e, f, g, h]) == Nodes(a) + Nodes(b) + Nodes(c) + Nodes(e) + Nodes(f) + Nodes(g) + Nodes(h)
  {
    assert [a, b, c, e, f, g, h][1..] == [b, c, e, f, g, h];
    Walk6(b, c, e, f, g, h, d);
    var p, x1 := Preorder(a, d), Preorder(b, d);
    var x2 := x1 + Preorder(c, d);
    assert p + x2 == p + x1 + Preorder(c, d);
    var x3 := x2 + Preorder(e, d);
    assert p + x3 == p + x2 + Preorder(e, d);
    var x4 := x3 + Preorder(f, d);
    assert p + x4 == p + x3 + Preorder(f, d);
    var x5 := x4 + Preorder(g, d);
    assert p + x5 == p + x4 + Preorder(g, d);
    var x6 := x5 + Preorder(h, d);
    assert p + x6 == p + x5 + Preorder(h, d);
  }

  // ---- names and types ---------------------------------------------------------------------------

  lemma {:induction false} SimpleWalk(x: SimpleName, d: nat)
    ensures Preorder(SimpleTree(x), d) == [Visit(x.region, d)] && Nodes(SimpleTree(x)) == 1
  {
  }

  lemma {:induction false} LiteralWalk(x: Literal, d: nat)
    ensures Preorder(LiteralTree(x), d) == [Visit(x.region, d)] && Nodes(LiteralTree(x)) == 1
  {
  }

  lemma {:induction false} NameWalk(x: Name, d: nat)
    ensures x.Simple? ==> Preorder(NameTree(x), d) == [Visit(x.name.region, d)] && Nodes(NameTree(x)) == 1
    ensures x.Qualified? ==>
              && Preorder(NameTree(x), d)
                 == [Visit(x.qualifiedRegion, d)]
                    + (Preorder(NameTree(x.qualifier), d + 1) + [Visit(x.last.region, d + 1)])
              && Nodes(NameTree(x)) == 1 + Nodes(NameTree(x.qualifier)) + 1
  {
    if x.Qualified? { Walk2(NameTree(x.qualifier), SimpleTree(x.last), d + 1); }
  }

  lemma {:induction false} TypeWalk(x: Type, d: nat)
    ensures x.PlainType? ==> Preorder(TypeTree(x), d) == [Visit(x.region, d)] && Nodes(TypeTree(x)) == 1
    ensures x.RowType? ==>
              && Preorder(TypeTree(x), d) == [Visit(x.region, d)] + PreorderOf(FieldTrees(x.fields), d + 1)
              && Nodes(TypeTree(x)) == 1 + NodesOf(FieldTrees(x.fields))
    ensures x.UserDefinedType? ==>
              && Preorder(TypeTree(x), d) == [Visit(x.region, d)] + Preorder(NameTree(x.name), d + 1)
              && Nodes(TypeTree(x)) == 1 + Nodes(NameTree(x.name))
    ensures x.CollectionType? ==>
              && Preorder(TypeTree(x), d) == [Visit(x.region, d)] + Preorder(TypeTree(x.element), d + 1)
              && Nodes(TypeTree(x)) == 1 + Nodes(TypeTree(x.element))
  {
    if x.RowType? {
      Walk1(Group(FieldTrees(x.fields)), d + 1);
    } else if x.UserDefinedType? {
      Walk1(NameTree(x.name), d + 1);
    } else if x.CollectionType? {
      Walk1(TypeTree(x.element), d + 1);
    }
  }

  lemma {:induction false} FieldWalk(x: FieldDefinition, d: nat)
    ensures
      && Preorder(FieldTree(x), d) == Preorder(SimpleTree(x.name), d) + Preorder(TypeTree(x.fieldType), d)
            + PreorderOf(NameOpt(x.collation), d)
      && Nodes(FieldTree(x)) == Nodes(SimpleTree(x.name)) + Nodes(TypeTree(x.fieldType))
            + NodesOf(NameOpt(x.collation))
  {
    Walk3(SimpleTree(x.name), TypeTree(x.fieldType), Group(NameOpt(x.collation)), d);
  }

  lemma {:induction false} SimplesWalk(xs: seq<SimpleName>, d: nat)
    ensures PreorderOf(SimpleTrees([]), d) == [] && NodesOf(SimpleTrees([])) == 0
    ensures xs != [] ==>
              && PreorderOf(SimpleTrees(xs), d)
                 == Preorder(SimpleTree(xs[0]), d) + PreorderOf(SimpleTrees(xs[1..]), d)
              && NodesOf(SimpleTrees(xs)) == Nodes(SimpleTree(xs[0])) + NodesOf(SimpleTrees(xs[1..]))
  {
    if xs != [] { assert SimpleTrees(xs)[1..] == SimpleTrees(xs[1..]); }
  }

  lemma {:induction false} NamesWalk(xs: seq<Name>, d: nat)
    ensures PreorderOf(NameTrees([]), d) == [] && NodesOf(NameTrees([])) == 0
    ensures xs != [] ==>
              && PreorderOf(NameTrees(xs), d) == Preorder(NameTree(xs[0]), d) + PreorderOf(NameTrees(xs[1..]), d)
              && NodesOf(NameTrees(xs)) == Nodes(NameTree(xs[0])) + NodesOf(NameTrees(xs[1..]))
  {
    if xs != [] { assert NameTrees(xs)[1..] == NameTrees(xs[1..]); }
  }

  lemma {:induction false} FieldsWalk(xs: seq<FieldDefinition>, d: nat)
    ensures PreorderOf(FieldTrees([]), d) == [] && NodesOf(FieldTrees([])) == 0
    ensures xs != [] ==>
              && PreorderOf(FieldTrees(xs), d) == Preorder(FieldTree(xs[0]), d) + PreorderOf(FieldTrees(xs[1..]), d)
              && NodesOf(FieldTrees(xs)) == Nodes(FieldTree(xs[0])) + NodesOf(FieldTrees(xs[1..]))
  {
    if xs != [] { assert FieldTrees(xs)[1..] == FieldTrees(xs[1..]); }
  }

  lemma {:induction false} SimpleOptWalk(x: Option<SimpleName>, d: nat)
    ensures PreorderOf(SimpleOpt(x), d) == if x.Some? then Preorder(SimpleTree(x.value), d) else []
    ensures NodesOf(SimpleOpt(x)) == if x.Some? then Nodes(SimpleTree(x.value)) else 0
  {
    if x.Some? { Walk1(SimpleTree(x.value), d); }
  }

  lemma {:induction false} NameOptWalk(x: Option<Name>, d: nat)
    ensures PreorderOf(NameOpt(x), d) == if x.Some? then Preorder(NameTree(x.value), d) else []
    ensures NodesOf(NameOpt(x)) == if x.Some? then Nodes(NameTree(x.value)) else 0
  {
    if x.Some? { Walk1(NameTree(x.value), d); }
  }

  lemma {:induction false} TypeOptWalk(x: Option<Type>, d: nat)
    ensures PreorderOf(TypeOpt(x), d) == if x.Some? then Preorder(TypeTree(x.value), d) else []
    ensures NodesOf(TypeOpt(x)) == if x.Some? then Nodes(TypeTree(x.value)) else 0
  {
    if x.Some? { Walk1(TypeTree(x.value), d); }
  }

  // ---- scalar expressions ------------------------------------------------------------------------

  lemma {:induction false} ReferenceWalk(x: Scalar, d: nat)
    ensures x.LiteralExpression? ==>
              && Preorder(ScalarTree(x), d) == [Visit(x.region, d)] + Preorder(LiteralTree(x.value), d + 1)
              && Nodes(ScalarTree(x)) == 1 + Nodes(LiteralTree(x.value))
    ensures x.VariableReference? ==>
              && Preorder(ScalarTree(x), d) == [Visit(x.region, d)] + Preorder(NameTree(x.name), d + 1)
              && Nodes(ScalarTree(x)) == 1 + Nodes(NameTree(x.name))
    ensures x.HostParameterReference? ==>
              && Preorder(ScalarTree(x), d) == [Visit(x.region, d)] + Preorder(SimpleTree(x.parameter), d + 1)
              && Nodes(ScalarTree(x)) == 1 + Nodes(SimpleTree(x.parameter))
    ensures x.FieldReference? ==>
              && Preorder(ScalarTree(x), d)
                 == [Visit(x.region, d)] + (Preorder(ScalarTree(x.receiver), d + 1)
                    + Preorder(SimpleTree(x.field), d + 1))
              && Nodes(ScalarTree(x)) == 1 + Nodes(ScalarTree(x.receiver)) + Nodes(SimpleTree(x.field))
    ensures x.CurrentOfCursor? ==>
              && Preorder(ScalarTree(x), d) == [Visit(x.region, d)] + Preorder(NameTree(x.name), d + 1)
              && Nodes(ScalarTree(x)) == 1 + Nodes(NameTree(x.name))
    ensures x.PlaceholderReference? ==>
              && Preorder(ScalarTree(x), d) == [Visit(x.region, d)] && Nodes(ScalarTree(x)) == 1
  {
    if x.LiteralExpression? {
      Walk1(LiteralTree(x.value), d + 1);
    } else if x.VariableReference? {
      Walk1(NameTree(x.name), d + 1);
    } else if x.HostParameterReference? {
      Walk1(SimpleTree(x.parameter), d + 1);
    } else if x.FieldReference? {
      Walk2(ScalarTree(x.receiver), SimpleTree(x.field), d + 1);
    } else if x.CurrentOfCursor? {
      Walk1(NameTree(x.name), d + 1);
    }
  }

  lemma {:induction false} OperatorWalk(x: Scalar, d: nat)
    ensures x.CastExpression? ==>
              && Preorder(ScalarTree(x), d)
                 == [Visit(x.region, d)] + (Preorder(ScalarTree(x.operand), d + 1)
                    + Preorder(TypeTree(x.castType), d + 1))
              && Nodes(ScalarTree(x)) == 1 + Nodes(ScalarTree(x.operand)) + Nodes(TypeTree(x.castType))
    ensures x.UnaryExpression? ==>
              && Preorder(ScalarTree(x), d) == [Visit(x.region, d)] + Preorder(ScalarTree(x.operand), d + 1)
              && Nodes(ScalarTree(x)) == 1 + Nodes(ScalarTree(x.operand))
    ensures x.BinaryExpression? ==>
              && Preorder(ScalarTree(x), d)
                 == [Visit(x.region, d)] + (Preorder(ScalarTree(x.left), d + 1)
                    + Preorder(ScalarTree(x.right), d + 1))
              && Nodes(ScalarTree(x)) == 1 + Nodes(ScalarTree(x.left)) + Nodes(ScalarTree(x.right))
    ensures x.ExtractExpression? ==>
              && Preorder(ScalarTree(x), d) == [Visit(x.region, d)] + Preorder(ScalarTree(x.operand), d + 1)
              && Nodes(ScalarTree(x)) == 1 + Nodes(ScalarTree(x.operand))
    ensures x.TrimExpression? ==>
              && Preorder(ScalarTree(x), d)
                 == [Visit(x.region, d)] + (PreorderOf(ScalarOpt(x.character), d + 1)
                    + Preorder(ScalarTree(x.source), d + 1))
              && Nodes(ScalarTree(x)) == 1 + NodesOf(ScalarOpt(x.character)) + Nodes(ScalarTree(x.source))
    ensures x.ComparisonPredicate? ==>
              && Preorder(ScalarTree(x), d)
                 == [Visit(x.region, d)] + (Preorder(ScalarTree(x.left), d + 1)
                    + Preorder(ScalarTree(x.right), d + 1))
              && Nodes(ScalarTree(x)) == 1 + Nodes(ScalarTree(x.left)) + Nodes(ScalarTree(x.right))
  {
    if x.CastExpression? {
      Walk2(ScalarTree(x.operand), TypeTree(x.castType), d + 1);
    } else if x.UnaryExpression? {
      Walk1(ScalarTree(x.operand), d + 1);
    } else if x.BinaryExpression? {
      Walk2(ScalarTree(x.left), ScalarTree(x.right), d + 1);
    } else if x.ExtractExpression? {
      Walk1(ScalarTree(x.operand), d + 1);
    } else if x.TrimExpression? {
      Walk2(Group(ScalarOpt(x.character)), ScalarTree(x.source), d + 1);
    } else if x.ComparisonPredicate? {
      Walk2(ScalarTree(x.left), ScalarTree(x.right), d + 1);
    }
  }

  lemma {:induction false} PredicateWalk(x: Scalar, d: nat)
    ensures x.CaseExpression? ==>
              && Preorder(ScalarTree(x), d)
                 == [Visit(x.region, d)] + (PreorderOf(ScalarOpt(x.caseOperand), d + 1)
                    + PreorderOf(WhenTrees(x.whens), d + 1) + PreorderOf(ScalarOpt(x.defaultResult), d + 1))
              && Nodes(ScalarTree(x)) == 1 + NodesOf(ScalarOpt(x.caseOperand)) + NodesOf(WhenTrees(x.whens))
                    + NodesOf(ScalarOpt(x.defaultResult))
    ensures x.ScalarSubquery? ==>
              && Preorder(ScalarTree(x), d) == [Visit(x.region, d)] + Preorder(QueryTree(x.query), d + 1)
              && Nodes(ScalarTree(x)) == 1 + Nodes(QueryTree(x.query))
    ensures x.QuantifiedComparison? ==>
              && Preorder(ScalarTree(x), d)
                 == [Visit(x.region, d)] + (Preorder(ScalarTree(x.operand), d + 1)
                    + Preorder(QueryTree(x.query), d + 1))
              && Nodes(ScalarTree(x)) == 1 + Nodes(ScalarTree(x.operand)) + Nodes(QueryTree(x.query))
    ensures x.BetweenPredicate? ==>
              && Preorder(ScalarTree(x), d)
                 == [Visit(x.region, d)] + (Preorder(ScalarTree(x.target), d + 1)
                    + Preorder(ScalarTree(x.left), d + 1) + Preorder(ScalarTree(x.right), d + 1))
              && Nodes(ScalarTree(x)) == 1 + Nodes(ScalarTree(x.target)) + Nodes(ScalarTree(x.left))
                    + Nodes(ScalarTree(x.right))
    ensures x.InPredicate? ==>
              && Preorder(ScalarTree(x), d)
                 == [Visit(x.region, d)] + (Preorder(ScalarTree(x.operand), d + 1)
                    + Preorder(QueryTree(x.query), d + 1))
              && Nodes(ScalarTree(x)) == 1 + Nodes(ScalarTree(x.operand)) + Nodes(QueryTree(x.query))
    ensures x.PatternMatch? ==>
              && Preorder(ScalarTree(x), d)
                 == [Visit(x.region, d)] + (Preorder(ScalarTree(x.left), d + 1)
                    + Preorder(ScalarTree(x.right), d + 1) + PreorderOf(ScalarOpt(x.escape), d + 1))
              && Nodes(ScalarTree(x)) == 1 + Nodes(ScalarTree(x.left)) + Nodes(ScalarTree(x.right))
                    + NodesOf(ScalarOpt(x.escape))
    ensures x.TablePredicate? ==>
              && Preorder(ScalarTree(x), d) == [Visit(x.region, d)] + Preorder(QueryTree(x.query), d + 1)
              && Nodes(ScalarTree(x)) == 1 + Nodes(QueryTree(x.query))
  {
    if x.CaseExpression? {
      Walk3(Group(ScalarOpt(x.caseOperand)), Group(WhenTrees(x.whens)), Group(ScalarOpt(x.defaultResult)), d + 1);
    } else if x.ScalarSubquery? {
      Walk1(QueryTree(x.query), d + 1);
    } else if x.QuantifiedComparison? {
      Walk2(ScalarTree(x.operand), QueryTree(x.query), d + 1);
    } else if x.BetweenPredicate? {
      Walk3(ScalarTree(x.target), ScalarTree(x.left), ScalarTree(x.right), d + 1);
    } else if x.InPredicate? {
      Walk2(ScalarTree(x.operand), QueryTree(x.query), d + 1);
    } else if x.PatternMatch? {
      Walk3(ScalarTree(x.left), ScalarTree(x.right), Group(ScalarOpt(x.escape)), d + 1);
    } else if x.TablePredicate? {
      Walk1(QueryTree(x.query), d + 1);
    }
  }

  lemma {:induction false} InvocationWalk(x: Scalar, d: nat)
    ensures x.ValueConstructor? ==>
              && Preorder(ScalarTree(x), d) == [Visit(x.region, d)] + PreorderOf(ScalarTrees(x.arguments), d + 1)
              && Nodes(ScalarTree(x)) == 1 + NodesOf(ScalarTrees(x.arguments))
    ensures x.FunctionInvocation? ==>
              && Preorder(ScalarTree(x), d) == [Visit(x.region, d)] + PreorderOf(ScalarTrees(x.arguments), d + 1)
              && Nodes(ScalarTree(x)) == 1 + NodesOf(ScalarTrees(x.arguments))
    ensures x.BuiltinFunctionInvocation? ==>
              && Preorder(ScalarTree(x), d) == [Visit(x.region, d)] + PreorderOf(ScalarTrees(x.arguments), d + 1)
              && Nodes(ScalarTree(x)) == 1 + NodesOf(ScalarTrees(x.arguments))
    ensures x.BuiltinSetFunctionInvocation? ==>
              && Preorder(ScalarTree(x), d) == [Visit(x.region, d)] + PreorderOf(ScalarTrees(x.arguments), d + 1)
              && Nodes(ScalarTree(x)) == 1 + NodesOf(ScalarTrees(x.arguments))
    ensures x.NewInvocation? ==>
              && Preorder(ScalarTree(x), d)
                 == [Visit(x.region, d)] + (Preorder(TypeTree(x.newType), d + 1)
                    + PreorderOf(ScalarTrees(x.arguments), d + 1))
              && Nodes(ScalarTree(x)) == 1 + Nodes(TypeTree(x.newType)) + NodesOf(ScalarTrees(x.arguments))
    ensures x.MethodInvocation? ==>
              && Preorder(ScalarTree(x), d)
                 == [Visit(x.region, d)] + (Preorder(ScalarTree(x.receiver), d + 1)
                    + Preorder(SimpleTree(x.methodName), d + 1) + PreorderOf(ScalarTrees(x.arguments), d + 1))
              && Nodes(ScalarTree(x)) == 1 + Nodes(ScalarTree(x.receiver)) + Nodes(SimpleTree(x.methodName))
                    + NodesOf(ScalarTrees(x.arguments))
    ensures x.StaticMethodInvocation? ==>
              && Preorder(ScalarTree(x), d)
                 == [Visit(x.region, d)] + (Preorder(TypeTree(x.ownerType), d + 1)
                    + Preorder(SimpleTree(x.methodName), d + 1) + PreorderOf(ScalarTrees(x.arguments), d + 1))
              && Nodes(ScalarTree(x)) == 1 + Nodes(TypeTree(x.ownerType)) + Nodes(SimpleTree(x.methodName))
                    + NodesOf(ScalarTrees(x.arguments))
  {
    if x.ValueConstructor? {
      Walk1(Group(ScalarTrees(x.arguments)), d + 1);
    } else if x.FunctionInvocation? {
      Walk1(Group(ScalarTrees(x.arguments)), d + 1);
    } else if x.BuiltinFunctionInvocation? {
      Walk1(Group(ScalarTrees(x.arguments)), d + 1);
    } else if x.BuiltinSetFunctionInvocation? {
      Walk1(Group(ScalarTrees(x.arguments)), d + 1);
    } else if x.NewInvocation? {
      Walk2(TypeTree(x.newType), Group(ScalarTrees(x.arguments)), d + 1);
    } else if x.MethodInvocation? {
      Walk3(ScalarTree(x.receiver), SimpleTree(x.methodName), Group(ScalarTrees(x.arguments)), d + 1);
    } else if x.StaticMethodInvocation? {
      Walk3(TypeTree(x.ownerType), SimpleTree(x.methodName), Group(ScalarTrees(x.arguments)), d + 1);
    }
  }

  lemma {:induction false} WhenWalk(x: WhenClause, d: nat)
    ensures
      && Preorder(WhenTree(x), d) == Preorder(ScalarTree(x.condition), d) + Preorder(ScalarTree(x.result), d)
      && Nodes(WhenTree(x)) == Nodes(ScalarTree(x.condition)) + Nodes(ScalarTree(x.result))
  {
    Walk2(ScalarTree(x.condition), ScalarTree(x.result), d);
  }

  lemma {:induction false} SortWalk(x: SortElement, d: nat)
    ensures
      && Preorder(SortTree(x), d) == Preorder(ScalarTree(x.key), d) + PreorderOf(NameOpt(x.collation), d)
      && Nodes(SortTree(x)) == Nodes(ScalarTree(x.key)) + NodesOf(NameOpt(x.collation))
  {
    Walk2(ScalarTree(x.key), Group(NameOpt(x.collation)), d);
  }

  lemma {:induction false} ScalarsWalk(xs: seq<Scalar>, d: nat)
    ensures PreorderOf(ScalarTrees([]), d) == [] && NodesOf(ScalarTrees([])) == 0
    ensures xs != [] ==>
              && PreorderOf(ScalarTrees(xs), d)
                 == Preorder(ScalarTree(xs[0]), d) + PreorderOf(ScalarTrees(xs[1..]), d)
              && NodesOf(ScalarTrees(xs)) == Nodes(ScalarTree(xs[0])) + NodesOf(ScalarTrees(xs[1..]))
  {
    if xs != [] { assert ScalarTrees(xs)[1..] == ScalarTrees(xs[1..]); }
  }

  lemma {:induction false} WhensWalk(xs: seq<WhenClause>, d: nat)
    ensures PreorderOf(WhenTrees([]), d) == [] && NodesOf(WhenTrees([])) == 0
    ensures xs != [] ==>
              && PreorderOf(WhenTrees(xs), d) == Preorder(WhenTree(xs[0]), d) + PreorderOf(WhenTrees(xs[1..]), d)
              && NodesOf(WhenTrees(xs)) == Nodes(WhenTree(xs[0])) + NodesOf(WhenTrees(xs[1..]))
  {
    if xs != [] { assert WhenTrees(xs)[1..] == WhenTrees(xs[1..]); }
  }

  lemma {:induction false} SortsWalk(xs: seq<SortElement>, d: nat)
    ensures PreorderOf(SortTrees([]), d) == [] && NodesOf(SortTrees([])) == 0
    ensures xs != [] ==>
              && PreorderOf(SortTrees(xs), d) == Preorder(SortTree(xs[0]), d) + PreorderOf(SortTrees(xs[1..]), d)
              && NodesOf(SortTrees(xs)) == Nodes(SortTree(xs[0])) + NodesOf(SortTrees(xs[1..]))
  {
    if xs != [] { assert SortTrees(xs)[1..] == SortTrees(xs[1..]); }
  }

  lemma {:induction false} ScalarOptWalk(x: Option<Scalar>, d: nat)
    ensures PreorderOf(ScalarOpt(x), d) == if x.Some? then Preorder(ScalarTree(x.value), d) else []
    ensures NodesOf(ScalarOpt(x)) == if x.Some? then Nodes(ScalarTree(x.value)) else 0
  {
    if x.Some? { Walk1(ScalarTree(x.value), d); }
  }

  // ---- queries and tables ------------------------------------------------------------------------

  lemma {:induction false} QueryWalk(x: Query, d: nat)
    ensures x.SelectQuery? ==>
              && Preorder(QueryTree(x), d)
                 == [Visit(x.region, d)] + (PreorderOf(SelectTrees(x.elements), d + 1)
                    + PreorderOf(TableTrees(x.from), d + 1) + PreorderOf(ScalarOpt(x.where), d + 1)
                    + PreorderOf(GroupByOpt(x.groupBy), d + 1) + PreorderOf(ScalarOpt(x.having), d + 1)
                    + PreorderOf(SortTrees(x.orderBy), d + 1) + PreorderOf(ScalarOpt(x.limit), d + 1))
              && Nodes(QueryTree(x)) == 1 + NodesOf(SelectTrees(x.elements)) + NodesOf(TableTrees(x.from))
                    + NodesOf(ScalarOpt(x.where)) + NodesOf(GroupByOpt(x.groupBy)) + NodesOf(ScalarOpt(x.having))
                    + NodesOf(SortTrees(x.orderBy)) + NodesOf(ScalarOpt(x.limit))
    ensures x.QueryTableReference? ==>
              && Preorder(QueryTree(x), d) == [Visit(x.region, d)] + Preorder(NameTree(x.name), d + 1)
              && Nodes(QueryTree(x)) == 1 + Nodes(NameTree(x.name))
    ensures x.TableValueConstructor? ==>
              && Preorder(QueryTree(x), d) == [Visit(x.region, d)] + PreorderOf(ScalarTrees(x.rows), d + 1)
              && Nodes(QueryTree(x)) == 1 + NodesOf(ScalarTrees(x.rows))
    ensures x.BinaryQuery? ==>
              && Preorder(QueryTree(x), d)
                 == [Visit(x.region, d)] + (Preorder(QueryTree(x.left), d + 1)
                    + PreorderOf(CorrespondingOpt(x.corresponding), d + 1) + Preorder(QueryTree(x.right), d + 1))
              && Nodes(QueryTree(x)) == 1 + Nodes(QueryTree(x.left)) + NodesOf(CorrespondingOpt(x.corresponding))
                    + Nodes(QueryTree(x.right))
    ensures x.WithQuery? ==>
              && Preorder(QueryTree(x), d)
                 == [Visit(x.region, d)] + (PreorderOf(WithTrees(x.clauses), d + 1)
                    + Preorder(QueryTree(x.body), d + 1))
              && Nodes(QueryTree(x)) == 1 + NodesOf(WithTrees(x.clauses)) + Nodes(QueryTree(x.body))
  {
    if x.SelectQuery? {
      Walk7(Group(SelectTrees(x.elements)), Group(TableTrees(x.from)), Group(ScalarOpt(x.where)),
            Group(GroupByOpt(x.groupBy)), Group(ScalarOpt(x.having)), Group(SortTrees(x.orderBy)),
            Group(ScalarOpt(x.limit)), d + 1);
    } else if x.QueryTableReference? {
      Walk1(NameTree(x.name), d + 1);
    } else if x.TableValueConstructor? {
      Walk1(Group(ScalarTrees(x.rows)), d + 1);
    } else if x.BinaryQuery? {
      Walk3(QueryTree(x.left), Group(CorrespondingOpt(x.corresponding)), QueryTree(x.right), d + 1);
    } else if x.WithQuery? {
      Walk2(Group(WithTrees(x.clauses)), QueryTree(x.body), d + 1);
    }
  }

  lemma {:induction false} SelectWalk(x: SelectElement, d: nat)
    ensures x.SelectColumn? ==>
              && Preorder(SelectTree(x), d)
                 == [Visit(x.region, d)] + (Preorder(ScalarTree(x.value), d + 1)
                    + PreorderOf(SimpleOpt(x.name), d + 1))
              && Nodes(SelectTree(x)) == 1 + Nodes(ScalarTree(x.value)) + NodesOf(SimpleOpt(x.name))
    ensures x.SelectAsterisk? ==>
              && Preorder(SelectTree(x), d) == [Visit(x.region, d)] + PreorderOf(ScalarOpt(x.qualifier), d + 1)
              && Nodes(SelectTree(x)) == 1 + NodesOf(ScalarOpt(x.qualifier))
  {
    if x.SelectColumn? {
      Walk2(ScalarTree(x.value), Group(SimpleOpt(x.name)), d + 1);
    } else if x.SelectAsterisk? {
      Walk1(Group(ScalarOpt(x.qualifier)), d + 1);
    }
  }

  lemma {:induction false} GroupingWalk(x: GroupingElement, d: nat)
    ensures
        && Preorder(GroupingTree(x), d)
           == [Visit(x.region, d)] + (Preorder(ScalarTree(x.column), d + 1)
              + PreorderOf(NameOpt(x.collation), d + 1))
        && Nodes(GroupingTree(x)) == 1 + Nodes(ScalarTree(x.column)) + NodesOf(NameOpt(x.collation))
  {
    Walk2(ScalarTree(x.column), Group(NameOpt(x.collation)), d + 1);
  }

  lemma {:induction false} WithWalk(x: WithElement, d: nat)
    ensures
      && Preorder(WithTree(x), d) == Preorder(SimpleTree(x.name), d) + PreorderOf(SimpleTrees(x.columnNames), d)
            + Preorder(QueryTree(x.expression), d)
      && Nodes(WithTree(x)) == Nodes(SimpleTree(x.name)) + NodesOf(SimpleTrees(x.columnNames))
            + Nodes(QueryTree(x.expression))
  {
    Walk3(SimpleTree(x.name), Group(SimpleTrees(x.columnNames)), QueryTree(x.expression), d);
  }

  lemma {:induction false} CorrelationWalk(x: Correlation, d: nat)
    ensures
      && Preorder(CorrelationTree(x), d) == Preorder(SimpleTree(x.name), d)
            + PreorderOf(SimpleTrees(x.columnNames), d)
      && Nodes(CorrelationTree(x)) == Nodes(SimpleTree(x.name)) + NodesOf(SimpleTrees(x.columnNames))
  {
    Walk2(SimpleTree(x.name), Group(SimpleTrees(x.columnNames)), d);
  }

  lemma {:induction false} TableWalk(x: Table, d: nat)
    ensures x.TableReference? ==>
              && Preorder(TableTree(x), d)
                 == [Visit(x.region, d)] + (Preorder(NameTree(x.name), d + 1)
                    + PreorderOf(CorrelationOpt(x.aliased), d + 1))
              && Nodes(TableTree(x)) == 1 + Nodes(NameTree(x.name)) + NodesOf(CorrelationOpt(x.aliased))
    ensures x.Unnest? ==>
              && Preorder(TableTree(x), d)
                 == [Visit(x.region, d)] + (Preorder(ScalarTree(x.scalar), d + 1)
                    + Preorder(CorrelationTree(x.correlation), d + 1))
              && Nodes(TableTree(x)) == 1 + Nodes(ScalarTree(x.scalar)) + Nodes(CorrelationTree(x.correlation))
    ensures x.Join? ==>
              && Preorder(TableTree(x), d)
                 == [Visit(x.region, d)] + (Preorder(TableTree(x.left), d + 1) + Preorder(TableTree(x.right), d + 1)
                    + PreorderOf(JoinOpt(x.specification), d + 1))
              && Nodes(TableTree(x)) == 1 + Nodes(TableTree(x.left)) + Nodes(TableTree(x.right))
                    + NodesOf(JoinOpt(x.specification))
    ensures x.TableSubquery? ==>
              && Preorder(TableTree(x), d)
                 == [Visit(x.region, d)] + (Preorder(QueryTree(x.query), d + 1)
                    + Preorder(CorrelationTree(x.correlation), d + 1))
              && Nodes(TableTree(x)) == 1 + Nodes(QueryTree(x.query)) + Nodes(CorrelationTree(x.correlation))
    ensures x.Apply? ==>
              && Preorder(TableTree(x), d)
                 == [Visit(x.region, d)] + (Preorder(NameTree(x.functionName), d + 1)
                    + PreorderOf(ScalarTrees(x.arguments), d + 1) + Preorder(CorrelationTree(x.correlation), d + 1))
              && Nodes(TableTree(x)) == 1 + Nodes(NameTree(x.functionName)) + NodesOf(ScalarTrees(x.arguments))
                    + Nodes(CorrelationTree(x.correlation))
  {
    if x.TableReference? {
      Walk2(NameTree(x.name), Group(CorrelationOpt(x.aliased)), d + 1);
    } else if x.Unnest? {
      Walk2(ScalarTree(x.scalar), CorrelationTree(x.correlation), d + 1);
    } else if x.Join? {
      Walk3(TableTree(x.left), TableTree(x.right), Group(JoinOpt(x.specification)), d + 1);
    } else if x.TableSubquery? {
      Walk2(QueryTree(x.query), CorrelationTree(x.correlation), d + 1);
    } else if x.Apply? {
      Walk3(NameTree(x.functionName), Group(ScalarTrees(x.arguments)), CorrelationTree(x.correlation), d + 1);
    }
  }

  lemma {:induction false} JoinWalk(x: JoinSpecification, d: nat)
    ensures x.JoinCondition? ==>
              && Preorder(JoinTree(x), d) == [Visit(x.region, d)] + Preorder(ScalarTree(x.expression), d + 1)
              && Nodes(JoinTree(x)) == 1 + Nodes(ScalarTree(x.expression))
    ensures x.JoinColumns? ==>
              && Preorder(JoinTree(x), d) == [Visit(x.region, d)] + PreorderOf(SimpleTrees(x.columns), d + 1)
              && Nodes(JoinTree(x)) == 1 + NodesOf(SimpleTrees(x.columns))
  {
    if x.JoinCondition? {
      Walk1(ScalarTree(x.expression), d + 1);
    } else if x.JoinColumns? {
      Walk1(Group(SimpleTrees(x.columns)), d + 1);
    }
  }

  lemma {:induction false} SelectsWalk(xs: seq<SelectElement>, d: nat)
    ensures PreorderOf(SelectTrees([]), d) == [] && NodesOf(SelectTrees([])) == 0
    ensures xs != [] ==>
              && PreorderOf(SelectTrees(xs), d)
                 == Preorder(SelectTree(xs[0]), d) + PreorderOf(SelectTrees(xs[1..]), d)
              && NodesOf(SelectTrees(xs)) == Nodes(SelectTree(xs[0])) + NodesOf(SelectTrees(xs[1..]))
  {
    if xs != [] { assert SelectTrees(xs)[1..] == SelectTrees(xs[1..]); }
  }

  lemma {:induction false} GroupingsWalk(xs: seq<GroupingElement>, d: nat)
    ensures PreorderOf(GroupingTrees([]), d) == [] && NodesOf(GroupingTrees([])) == 0
    ensures xs != [] ==>
              && PreorderOf(GroupingTrees(xs), d)
                 == Preorder(GroupingTree(xs[0]), d) + PreorderOf(GroupingTrees(xs[1..]), d)
              && NodesOf(GroupingTrees(xs)) == Nodes(GroupingTree(xs[0])) + NodesOf(GroupingTrees(xs[1..]))
  {
    if xs != [] { assert GroupingTrees(xs)[1..] == GroupingTrees(xs[1..]); }
  }

  lemma {:induction false} WithsWalk(xs: seq<WithElement>, d: nat)
    ensures PreorderOf(WithTrees([]), d) == [] && NodesOf(WithTrees([])) == 0
    ensures xs != [] ==>
              && PreorderOf(WithTrees(xs), d) == Preorder(WithTree(xs[0]), d) + PreorderOf(WithTrees(xs[1..]), d)
              && NodesOf(WithTrees(xs)) == Nodes(WithTree(xs[0])) + NodesOf(WithTrees(xs[1..]))
  {
    if xs != [] { assert WithTrees(xs)[1..] == WithTrees(xs[1..]); }
  }

  lemma {:induction false} TablesWalk(xs: seq<Table>, d: nat)
    ensures PreorderOf(TableTrees([]), d) == [] && NodesOf(TableTrees([])) == 0
    ensures xs != [] ==>
              && PreorderOf(TableTrees(xs), d) == Preorder(TableTree(xs[0]), d) + PreorderOf(TableTrees(xs[1..]), d)
              && NodesOf(TableTrees(xs)) == Nodes(TableTree(xs[0])) + NodesOf(TableTrees(xs[1..]))
  {
    if xs != [] { assert TableTrees(xs)[1..] == TableTrees(xs[1..]); }
  }

  lemma {:induction false} QueryOptWalk(x: Option<Query>, d: nat)
    ensures PreorderOf(QueryOpt(x), d) == if x.Some? then Preorder(QueryTree(x.value), d) else []
    ensures NodesOf(QueryOpt(x)) == if x.Some? then Nodes(QueryTree(x.value)) else 0
  {
    if x.Some? { Walk1(QueryTree(x.value), d); }
  }

  lemma {:induction false} CorrespondingOptWalk(x: Option<seq<SimpleName>>, d: nat)
    ensures PreorderOf(CorrespondingOpt(x), d) == if x.Some? then PreorderOf(SimpleTrees(x.value), d) else []
    ensures NodesOf(CorrespondingOpt(x)) == if x.Some? then NodesOf(SimpleTrees(x.value)) else 0
  {
    if x.Some? { Walk1(Group(SimpleTrees(x.value)), d); }
  }

  lemma {:induction false} GroupByOptWalk(x: Option<GroupByClause>, d: nat)
    ensures PreorderOf(GroupByOpt(x), d) == if x.Some? then PreorderOf(GroupingTrees(x.value.elements), d) else []
    ensures NodesOf(GroupByOpt(x)) == if x.Some? then NodesOf(GroupingTrees(x.value.elements)) else 0
  {
    if x.Some? { Walk1(GroupByTree(x.value), d); }
  }

  lemma {:induction false} CorrelationOptWalk(x: Option<Correlation>, d: nat)
    ensures PreorderOf(CorrelationOpt(x), d) == if x.Some? then Preorder(CorrelationTree(x.value), d) else []
    ensures NodesOf(CorrelationOpt(x)) == if x.Some? then Nodes(CorrelationTree(x.value)) else 0
  {
    if x.Some? { Walk1(CorrelationTree(x.value), d); }
  }

  lemma {:induction false} JoinOptWalk(x: Option<JoinSpecification>, d: nat)
    ensures PreorderOf(JoinOpt(x), d) == if x.Some? then Preorder(JoinTree(x.value), d) else []
    ensures NodesOf(JoinOpt(x)) == if x.Some? then Nodes(JoinTree(x.value)) else 0
  {
    if x.Some? { Walk1(JoinTree(x.value), d); }
  }

  // ---- statements --------------------------------------------------------------------------------

  lemma {:induction false} ConstraintWalk(x: Constraint, d: nat)
    ensures x.SimpleConstraint? ==>
              && Preorder(ConstraintTree(x), d) == [Visit(x.region, d)] && Nodes(ConstraintTree(x)) == 1
    ensures x.ExpressionConstraint? ==>
              && Preorder(ConstraintTree(x), d) == [Visit(x.region, d)] + Preorder(ScalarTree(x.expression), d + 1)
              && Nodes(ConstraintTree(x)) == 1 + Nodes(ScalarTree(x.expression))
    ensures x.KeyConstraint? ==>
              && Preorder(ConstraintTree(x), d)
                 == [Visit(x.region, d)] + (PreorderOf(SortTrees(x.keys), d + 1)
                    + PreorderOf(ScalarTrees(x.values), d + 1) + PreorderOf(ParameterTrees(x.parameters), d + 1))
              && Nodes(ConstraintTree(x)) == 1 + NodesOf(SortTrees(x.keys)) + NodesOf(ScalarTrees(x.values))
                    + NodesOf(ParameterTrees(x.parameters))
    ensures x.ReferentialConstraint? ==>
              && Preorder(ConstraintTree(x), d)
                 == [Visit(x.region, d)] + (PreorderOf(SimpleTrees(x.columns), d + 1)
                    + Preorder(NameTree(x.target), d + 1) + PreorderOf(SimpleTrees(x.targetColumns), d + 1))
              && Nodes(ConstraintTree(x)) == 1 + NodesOf(SimpleTrees(x.columns)) + Nodes(NameTree(x.target))
                    + NodesOf(SimpleTrees(x.targetColumns))
    ensures x.IdentityConstraint? ==>
              && Preorder(ConstraintTree(x), d)
                 == [Visit(x.region, d)] + (PreorderOf(ScalarOpt(x.initial), d + 1)
                    + PreorderOf(ScalarOpt(x.increment), d + 1) + PreorderOf(ScalarOpt(x.min), d + 1)
                    + PreorderOf(ScalarOpt(x.max), d + 1))
              && Nodes(ConstraintTree(x)) == 1 + NodesOf(ScalarOpt(x.initial)) + NodesOf(ScalarOpt(x.increment))
                    + NodesOf(ScalarOpt(x.min)) + NodesOf(ScalarOpt(x.max))
  {
    if x.ExpressionConstraint? {
      Walk1(ScalarTree(x.expression), d + 1);
    } else if x.KeyConstraint? {
      Walk3(Group(SortTrees(x.keys)), Group(ScalarTrees(x.values)), Group(ParameterTrees(x.parameters)), d + 1);
    } else if x.ReferentialConstraint? {
      Walk3(Group(SimpleTrees(x.columns)), NameTree(x.target), Group(SimpleTrees(x.targetColumns)), d + 1);
    } else if x.IdentityConstraint? {
      Walk4(Group(ScalarOpt(x.initial)), Group(ScalarOpt(x.increment)), Group(ScalarOpt(x.min)),
            Group(ScalarOpt(x.max)), d + 1);
    }
  }

  lemma {:induction false} ElementWalk(x: TableElement, d: nat)
    ensures x.ColumnDefinition? ==>
              && Preorder(ElementTree(x), d)
                 == [Visit(x.region, d)] + (Preorder(SimpleTree(x.name), d + 1)
                    + Preorder(TypeTree(x.columnType), d + 1)
                    + PreorderOf(ColumnConstraintTrees(x.constraints), d + 1))
              && Nodes(ElementTree(x)) == 1 + Nodes(SimpleTree(x.name)) + Nodes(TypeTree(x.columnType))
                    + NodesOf(ColumnConstraintTrees(x.constraints))
    ensures x.TableConstraint? ==>
              && Preorder(ElementTree(x), d)
                 == [Visit(x.region, d)] + (PreorderOf(NameOpt(x.constraintName), d + 1)
                    + Preorder(ConstraintTree(x.body), d + 1))
              && Nodes(ElementTree(x)) == 1 + NodesOf(NameOpt(x.constraintName)) + Nodes(ConstraintTree(x.body))
  {
    if x.ColumnDefinition? {
      Walk3(SimpleTree(x.name), TypeTree(x.columnType), Group(ColumnConstraintTrees(x.constraints)), d + 1);
    } else if x.TableConstraint? {
      Walk2(Group(NameOpt(x.constraintName)), ConstraintTree(x.body), d + 1);
    }
  }

  lemma {:induction false} ActionWalk(x: AlterAction, d: nat)
    ensures x.RenameTable? ==>
              && Preorder(ActionTree(x), d) == [Visit(x.region, d)] + Preorder(SimpleTree(x.replacement), d + 1)
              && Nodes(ActionTree(x)) == 1 + Nodes(SimpleTree(x.replacement))
    ensures x.RenameColumn? ==>
              && Preorder(ActionTree(x), d)
                 == [Visit(x.region, d)] + (Preorder(SimpleTree(x.column), d + 1)
                    + Preorder(SimpleTree(x.replacement), d + 1))
              && Nodes(ActionTree(x)) == 1 + Nodes(SimpleTree(x.column)) + Nodes(SimpleTree(x.replacement))
    ensures x.RenameIndex? ==>
              && Preorder(ActionTree(x), d) == [Visit(x.region, d)] + Preorder(SimpleTree(x.replacement), d + 1)
              && Nodes(ActionTree(x)) == 1 + Nodes(SimpleTree(x.replacement))
  {
    if x.RenameTable? {
      Walk1(SimpleTree(x.replacement), d + 1);
    } else if x.RenameColumn? {
      Walk2(SimpleTree(x.column), SimpleTree(x.replacement), d + 1);
    } else if x.RenameIndex? {
      Walk1(SimpleTree(x.replacement), d + 1);
    }
  }

  lemma {:induction false} ManipulationWalk(x: Statement, d: nat)
    ensures x.EmptyStatement? ==>
              && Preorder(StatementTree(x), d) == [Visit(x.region, d)] && Nodes(StatementTree(x)) == 1
    ensures x.SelectStatement? ==>
              && Preorder(StatementTree(x), d)
                 == [Visit(x.region, d)] + (Preorder(QueryTree(x.query), d + 1)
                    + PreorderOf(TargetTrees(x.targets), d + 1))
              && Nodes(StatementTree(x)) == 1 + Nodes(QueryTree(x.query)) + NodesOf(TargetTrees(x.targets))
    ensures x.InsertStatement? ==>
              && Preorder(StatementTree(x), d)
                 == [Visit(x.region, d)] + (Preorder(NameTree(x.table), d + 1)
                    + PreorderOf(SimpleTrees(x.columns), d + 1) + PreorderOf(QueryOpt(x.source), d + 1))
              && Nodes(StatementTree(x)) == 1 + Nodes(NameTree(x.table)) + NodesOf(SimpleTrees(x.columns))
                    + NodesOf(QueryOpt(x.source))
    ensures x.UpdateStatement? ==>
              && Preorder(StatementTree(x), d)
                 == [Visit(x.region, d)] + (Preorder(NameTree(x.table), d + 1)
                    + PreorderOf(SetTrees(x.assignments), d + 1) + PreorderOf(ScalarOpt(x.where), d + 1))
              && Nodes(StatementTree(x)) == 1 + Nodes(NameTree(x.table)) + NodesOf(SetTrees(x.assignments))
                    + NodesOf(ScalarOpt(x.where))
    ensures x.DeleteStatement? ==>
              && Preorder(StatementTree(x), d)
                 == [Visit(x.region, d)] + (Preorder(NameTree(x.table), d + 1)
                    + PreorderOf(ScalarOpt(x.where), d + 1))
              && Nodes(StatementTree(x)) == 1 + Nodes(NameTree(x.table)) + NodesOf(ScalarOpt(x.where))
  {
    if x.SelectStatement? {
      Walk2(QueryTree(x.query), Group(TargetTrees(x.targets)), d + 1);
    } else if x.InsertStatement? {
      Walk3(NameTree(x.table), Group(SimpleTrees(x.columns)), Group(QueryOpt(x.source)), d + 1);
    } else if x.UpdateStatement? {
      Walk3(NameTree(x.table), Group(SetTrees(x.assignments)), Group(ScalarOpt(x.where)), d + 1);
    } else if x.DeleteStatement? {
      Walk2(NameTree(x.table), Group(ScalarOpt(x.where)), d + 1);
    }
  }

  lemma {:induction false} DefinitionWalk(x: Statement, d: nat)
    ensures x.TableDefinition? ==>
              && Preorder(StatementTree(x), d)
                 == [Visit(x.region, d)] + (Preorder(NameTree(x.name), d + 1)
                    + PreorderOf(ElementTrees(x.elements), d + 1) + PreorderOf(ParameterTrees(x.parameters), d + 1))
              && Nodes(StatementTree(x)) == 1 + Nodes(NameTree(x.name)) + NodesOf(ElementTrees(x.elements))
                    + NodesOf(ParameterTrees(x.parameters))
    ensures x.IndexDefinition? ==>
              && Preorder(StatementTree(x), d)
                 == [Visit(x.region, d)] + (PreorderOf(NameOpt(x.indexName), d + 1)
                    + Preorder(NameTree(x.table), d + 1) + PreorderOf(SortTrees(x.keys), d + 1)
                    + PreorderOf(ScalarTrees(x.values), d + 1) + PreorderOf(ScalarOpt(x.filter), d + 1)
                    + PreorderOf(ParameterTrees(x.parameters), d + 1))
              && Nodes(StatementTree(x)) == 1 + NodesOf(NameOpt(x.indexName)) + Nodes(NameTree(x.table))
                    + NodesOf(SortTrees(x.keys)) + NodesOf(ScalarTrees(x.values)) + NodesOf(ScalarOpt(x.filter))
                    + NodesOf(ParameterTrees(x.parameters))
    ensures x.ViewDefinition? ==>
              && Preorder(StatementTree(x), d)
                 == [Visit(x.region, d)] + (Preorder(NameTree(x.name), d + 1)
                    + PreorderOf(SimpleTrees(x.columns), d + 1) + Preorder(QueryTree(x.definition), d + 1)
                    + PreorderOf(ParameterTrees(x.parameters), d + 1))
              && Nodes(StatementTree(x)) == 1 + Nodes(NameTree(x.name)) + NodesOf(SimpleTrees(x.columns))
                    + Nodes(QueryTree(x.definition)) + NodesOf(ParameterTrees(x.parameters))
  {
    if x.TableDefinition? {
      Walk3(NameTree(x.name), Group(ElementTrees(x.elements)), Group(ParameterTrees(x.parameters)), d + 1);
    } else if x.IndexDefinition? {
      Walk6(Group(NameOpt(x.indexName)), NameTree(x.table), Group(SortTrees(x.keys)), Group(ScalarTrees(x.values)),
            Group(ScalarOpt(x.filter)), Group(ParameterTrees(x.parameters)), d + 1);
    } else if x.ViewDefinition? {
      Walk4(NameTree(x.name), Group(SimpleTrees(x.columns)), QueryTree(x.definition),
            Group(ParameterTrees(x.parameters)), d + 1);
    }
  }

  lemma {:induction false} CreationWalk(x: Statement, d: nat)
    ensures x.SequenceDefinition? ==>
              && Preorder(StatementTree(x), d)
                 == [Visit(x.region, d)] + (Preorder(NameTree(x.name), d + 1)
                    + PreorderOf(TypeOpt(x.valueType), d + 1) + PreorderOf(ScalarOpt(x.initial), d + 1)
                    + PreorderOf(ScalarOpt(x.increment), d + 1) + PreorderOf(ScalarOpt(x.min), d + 1)
                    + PreorderOf(ScalarOpt(x.max), d + 1) + PreorderOf(NameOpt(x.owner), d + 1))
              && Nodes(StatementTree(x)) == 1 + Nodes(NameTree(x.name)) + NodesOf(TypeOpt(x.valueType))
                    + NodesOf(ScalarOpt(x.initial)) + NodesOf(ScalarOpt(x.increment)) + NodesOf(ScalarOpt(x.min))
                    + NodesOf(ScalarOpt(x.max)) + NodesOf(NameOpt(x.owner))
    ensures x.SchemaDefinition? ==>
              && Preorder(StatementTree(x), d)
                 == [Visit(x.region, d)] + (PreorderOf(NameOpt(x.schemaName), d + 1)
                    + PreorderOf(SimpleOpt(x.user), d + 1) + PreorderOf(StatementTrees(x.statements), d + 1))
              && Nodes(StatementTree(x)) == 1 + NodesOf(NameOpt(x.schemaName)) + NodesOf(SimpleOpt(x.user))
                    + NodesOf(StatementTrees(x.statements))
  {
    if x.SequenceDefinition? {
      Walk7(NameTree(x.name), Group(TypeOpt(x.valueType)), Group(ScalarOpt(x.initial)),
            Group(ScalarOpt(x.increment)), Group(ScalarOpt(x.min)), Group(ScalarOpt(x.max)),
            Group(NameOpt(x.owner)), d + 1);
    } else if x.SchemaDefinition? {
      Walk3(Group(NameOpt(x.schemaName)), Group(SimpleOpt(x.user)), Group(StatementTrees(x.statements)), d + 1);
    }
  }

  lemma {:induction false} AlterationWalk(x: Statement, d: nat)
    ensures x.AlterTable? ==>
              && Preorder(StatementTree(x), d)
                 == [Visit(x.region, d)] + (Preorder(NameTree(x.name), d + 1)
                    + Preorder(ActionTree(x.action), d + 1))
              && Nodes(StatementTree(x)) == 1 + Nodes(NameTree(x.name)) + Nodes(ActionTree(x.action))
    ensures x.AlterIndex? ==>
              && Preorder(StatementTree(x), d)
                 == [Visit(x.region, d)] + (Preorder(NameTree(x.name), d + 1)
                    + Preorder(ActionTree(x.action), d + 1))
              && Nodes(StatementTree(x)) == 1 + Nodes(NameTree(x.name)) + Nodes(ActionTree(x.action))
    ensures x.DropStatement? ==>
              && Preorder(StatementTree(x), d) == [Visit(x.region, d)] + Preorder(NameTree(x.name), d + 1)
              && Nodes(StatementTree(x)) == 1 + Nodes(NameTree(x.name))
    ensures x.TruncateTable? ==>
              && Preorder(StatementTree(x), d) == [Visit(x.region, d)] + Preorder(NameTree(x.name), d + 1)
              && Nodes(StatementTree(x)) == 1 + Nodes(NameTree(x.name))
    ensures x.PrivilegeStatement? ==>
              && Preorder(StatementTree(x), d)
                 == [Visit(x.region, d)] + (PreorderOf(NameTrees(x.objects), d + 1)
                    + PreorderOf(UserTrees(x.users), d + 1))
              && Nodes(StatementTree(x)) == 1 + NodesOf(NameTrees(x.objects)) + NodesOf(UserTrees(x.users))
  {
    if x.AlterTable? {
      Walk2(NameTree(x.name), ActionTree(x.action), d + 1);
    } else if x.AlterIndex? {
      Walk2(NameTree(x.name), ActionTree(x.action), d + 1);
    } else if x.DropStatement? {
      Walk1(NameTree(x.name), d + 1);
    } else if x.TruncateTable? {
      Walk1(NameTree(x.name), d + 1);
    } else if x.PrivilegeStatement? {
      Walk2(Group(NameTrees(x.objects)), Group(UserTrees(x.users)), d + 1);
    }
  }

  lemma {:induction false} ParameterWalk(x: StorageParameter, d: nat)
    ensures
      && Preorder(ParameterTree(x), d) == Preorder(NameTree(x.name), d) + PreorderOf(ScalarOpt(x.value), d)
      && Nodes(ParameterTree(x)) == Nodes(NameTree(x.name)) + NodesOf(ScalarOpt(x.value))
  {
    Walk2(NameTree(x.name), Group(ScalarOpt(x.value)), d);
  }

  lemma {:induction false} ColumnConstraintWalk(x: ColumnConstraint, d: nat)
    ensures
      && Preorder(ColumnConstraintTree(x), d) == PreorderOf(NameOpt(x.name), d)
            + Preorder(ConstraintTree(x.body), d)
      && Nodes(ColumnConstraintTree(x)) == NodesOf(NameOpt(x.name)) + Nodes(ConstraintTree(x.body))
  {
    Walk2(Group(NameOpt(x.name)), ConstraintTree(x.body), d);
  }

  lemma {:induction false} TargetWalk(x: TargetElement, d: nat)
    ensures
      && Preorder(TargetTree(x), d) == Preorder(NameTree(x.target), d) + PreorderOf(SimpleOpt(x.indicator), d)
      && Nodes(TargetTree(x)) == Nodes(NameTree(x.target)) + NodesOf(SimpleOpt(x.indicator))
  {
    Walk2(NameTree(x.target), Group(SimpleOpt(x.indicator)), d);
  }

  lemma {:induction false} SetWalk(x: SetElement, d: nat)
    ensures
      && Preorder(SetTree(x), d) == Preorder(NameTree(x.target), d) + Preorder(ScalarTree(x.value), d)
      && Nodes(SetTree(x)) == Nodes(NameTree(x.target)) + Nodes(ScalarTree(x.value))
  {
    Walk2(NameTree(x.target), ScalarTree(x.value), d);
  }

  lemma {:induction false} ParametersWalk(xs: seq<StorageParameter>, d: nat)
    ensures PreorderOf(ParameterTrees([]), d) == [] && NodesOf(ParameterTrees([])) == 0
    ensures xs != [] ==>
              && PreorderOf(ParameterTrees(xs), d)
                 == Preorder(ParameterTree(xs[0]), d) + PreorderOf(ParameterTrees(xs[1..]), d)
              && NodesOf(ParameterTrees(xs)) == Nodes(ParameterTree(xs[0])) + NodesOf(ParameterTrees(xs[1..]))
  {
    if xs != [] { assert ParameterTrees(xs)[1..] == ParameterTrees(xs[1..]); }
  }

  lemma {:induction false} ColumnConstraintsWalk(xs: seq<ColumnConstraint>, d: nat)
    ensures PreorderOf(ColumnConstraintTrees([]), d) == [] && NodesOf(ColumnConstraintTrees([])) == 0
    ensures xs != [] ==>
              && PreorderOf(ColumnConstraintTrees(xs), d)
                 == Preorder(ColumnConstraintTree(xs[0]), d) + PreorderOf(ColumnConstraintTrees(xs[1..]), d)
              && NodesOf(ColumnConstraintTrees(xs))
                 == Nodes(ColumnConstraintTree(xs[0])) + NodesOf(ColumnConstraintTrees(xs[1..]))
  {
    if xs != [] { assert ColumnConstraintTrees(xs)[1..] == ColumnConstraintTrees(xs[1..]); }
  }

  lemma {:induction false} ElementsWalk(xs: seq<TableElement>, d: nat)
    ensures PreorderOf(ElementTrees([]), d) == [] && NodesOf(ElementTrees([])) == 0
    ensures xs != [] ==>
              && PreorderOf(ElementTrees(xs), d)
                 == Preorder(ElementTree(xs[0]), d) + PreorderOf(ElementTrees(xs[1..]), d)
              && NodesOf(ElementTrees(xs)) == Nodes(ElementTree(xs[0])) + NodesOf(ElementTrees(xs[1..]))
  {
    if xs != [] { assert ElementTrees(xs)[1..] == ElementTrees(xs[1..]); }
  }

  lemma {:induction false} TargetsWalk(xs: seq<TargetElement>, d: nat)
    ensures PreorderOf(TargetTrees([]), d) == [] && NodesOf(TargetTrees([])) == 0
    ensures xs != [] ==>
              && PreorderOf(TargetTrees(xs), d)
                 == Preorder(TargetTree(xs[0]), d) + PreorderOf(TargetTrees(xs[1..]), d)
              && NodesOf(TargetTrees(xs)) == Nodes(TargetTree(xs[0])) + NodesOf(TargetTrees(xs[1..]))
  {
    if xs != [] { assert TargetTrees(xs)[1..] == TargetTrees(xs[1..]); }
  }

  lemma {:induction false} SetsWalk(xs: seq<SetElement>, d: nat)
    ensures PreorderOf(SetTrees([]), d) == [] && NodesOf(SetTrees([])) == 0
    ensures xs != [] ==>
              && PreorderOf(SetTrees(xs), d) == Preorder(SetTree(xs[0]), d) + PreorderOf(SetTrees(xs[1..]), d)
              && NodesOf(SetTrees(xs)) == Nodes(SetTree(xs[0])) + NodesOf(SetTrees(xs[1..]))
  {
    if xs != [] { assert SetTrees(xs)[1..] == SetTrees(xs[1..]); }
  }

  lemma {:induction false} StatementsWalk(xs: seq<Statement>, d: nat)
    ensures PreorderOf(StatementTrees([]), d) == [] && NodesOf(StatementTrees([])) == 0
    ensures xs != [] ==>
              && PreorderOf(StatementTrees(xs), d)
                 == Preorder(StatementTree(xs[0]), d) + PreorderOf(StatementTrees(xs[1..]), d)
              && NodesOf(StatementTrees(xs)) == Nodes(StatementTree(xs[0])) + NodesOf(StatementTrees(xs[1..]))
  {
    if xs != [] { assert StatementTrees(xs)[1..] == StatementTrees(xs[1..]); }
  }

  lemma {:induction false} UsersWalk(xs: seq<Option<SimpleName>>, d: nat)
    ensures PreorderOf(UserTrees([]), d) == [] && NodesOf(UserTrees([])) == 0
    ensures xs != [] ==>
              && PreorderOf(UserTrees(xs), d) == PreorderOf(SimpleOpt(xs[0]), d) + PreorderOf(UserTrees(xs[1..]), d)
              && NodesOf(UserTrees(xs)) == NodesOf(SimpleOpt(xs[0])) + NodesOf(UserTrees(xs[1..]))
  {
    if xs != [] { assert UserTrees(xs)[1..] == UserTrees(xs[1..]); }
  }
}
