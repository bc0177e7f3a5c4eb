/**
 The visited tree, together with what the visitor skips, determines the syntax: every field of every
 node is visited or skipped, and different names, expressions, queries and statements have different trees.
 */
module TreeEncoding {
  import opened Options
  import opened Regions
  import opened Ast
  import opened VisitedTree

  // ---- names and types ---------------------------------------------------------------------------

  lemma {:induction false} SimplesAreDetermined(a: seq<SimpleName>, b: seq<SimpleName>)
    requires SimpleTrees(a) == SimpleTrees(b)
    ensures a == b
  {
    forall i | 0 <= i < |SimpleTrees(a)| ensures a[i] == b[i] {
      assert SimpleTrees(a)[i] == SimpleTrees(b)[i];
    }
  }

  lemma {:induction false} SimpleOptIsDetermined(a: Option<SimpleName>, b: Option<SimpleName>)
    requires SimpleOpt(a) == SimpleOpt(b)
    ensures a == b
  {
    assert |SimpleOpt(a)| == |SimpleOpt(b)|;
    assert a.Some? ==> SimpleOpt(a)[0] == SimpleOpt(b)[0];
  }

  lemma {:induction false} NameIsDetermined(a: Name, b: Name)
    requires NameTree(a) == NameTree(b)
    ensures a == b
  {
    var s, t := NameTree(a).children, NameTree(b).children;
    if a.Qualified? {
      assert s[0] == t[0] && s[1] == t[1];
      NameIsDetermined(a.qualifier, b.qualifier);
    }
  }

  lemma {:induction false} NamesAreDetermined(a: seq<Name>, b: seq<Name>)
    requires NameTrees(a) == NameTrees(b)
    ensures a == b
  {
    forall i | 0 <= i < |NameTrees(a)| ensures a[i] == b[i] {
      assert NameTrees(a)[i] == NameTrees(b)[i];
      NameIsDetermined(a[i], b[i]);
    }
  }

  lemma {:induction false} NameOptIsDetermined(a: Option<Name>, b: Option<Name>)
    requires NameOpt(a) == NameOpt(b)
    ensures a == b
  {
    assert |NameOpt(a)| == |NameOpt(b)|;
    if a.Some? {
      assert NameOpt(a)[0] == NameOpt(b)[0];
      NameIsDetermined(a.value, b.value);
    }
  }

  lemma {:induction false} TypeIsDetermined(a: Type, b: Type)
    requires TypeTree(a) == TypeTree(b)
    ensures a == b
  {
    var s, t := TypeTree(a).children, TypeTree(b).children;
    if a.RowType? {
      assert s[0] == t[0];
      FieldsAreDetermined(a.fields, b.fields);
    } else if a.UserDefinedType? {
      assert s[0] == t[0];
      NameIsDetermined(a.name, b.name);
    } else if a.CollectionType? {
      assert s[0] == t[0];
      TypeIsDetermined(a.element, b.element);
    }
  }

  lemma {:induction false} TypeOptIsDetermined(a: Option<Type>, b: Option<Type>)
    requires TypeOpt(a) == TypeOpt(b)
    ensures a == b
  {
    assert |TypeOpt(a)| == |TypeOpt(b)|;
    if a.Some? {
      assert TypeOpt(a)[0] == TypeOpt(b)[0];
      TypeIsDetermined(a.value, b.value);
    }
  }

  lemma {:induction false} FieldsAreDetermined(a: seq<FieldDefinition>, b: seq<FieldDefinition>)
    requires FieldTrees(a) == FieldTrees(b)
    ensures a == b
  {
    forall i | 0 <= i < |FieldTrees(a)| ensures a[i] == b[i] {
      assert FieldTrees(a)[i] == FieldTrees(b)[i];
      FieldIsDetermined(a[i], b[i]);
    }
  }

  lemma {:induction false} FieldIsDetermined(a: FieldDefinition, b: FieldDefinition)
    requires FieldTree(a) == FieldTree(b)
    ensures a == b
  {
    var s, t := FieldTree(a).members, FieldTree(b).members;
    assert s[0] == t[0] && s[1] == t[1] && s[2] == t[2];
    TypeIsDetermined(a.fieldType, b.fieldType);
    NameOptIsDetermined(a.collation, b.collation);
  }

  // ---- scalar expressions ------------------------------------------------------------------------

  lemma {:induction false} ScalarIsDetermined(a: Scalar, b: Scalar)
    requires ScalarTree(a) == ScalarTree(b)
    ensures a == b
    decreases a, 1
  {
    if IsReference(a) {
      ReferenceIsDetermined(a, b);
    } else if IsOperator(a) {
      OperatorIsDetermined(a, b);
    } else if IsPredicate(a) {
      PredicateIsDetermined(a, b);
    } else {
      InvocationIsDetermined(a, b);
    }
  }

  // The kind of a node can be told from its head.
  lemma {:induction false} ScalarHeadTells(a: Scalar)
    ensures (a.LiteralExpression? <==> ScalarHead(a).LiteralExpressionLabel?)
    ensures (a.VariableReference? <==> ScalarHead(a).VariableLabel?)
    ensures (a.HostParameterReference? <==> ScalarHead(a).HostParameterLabel?)
    ensures (a.FieldReference? <==> ScalarHead(a).FieldReferenceLabel?)
    ensures (a.CurrentOfCursor? <==> ScalarHead(a).CurrentOfLabel?)
    ensures (a.PlaceholderReference? <==> ScalarHead(a).PlaceholderLabel?)
    ensures (a.CastExpression? <==> ScalarHead(a).CastLabel?) && (a.UnaryExpression? <==> ScalarHead(a).UnaryLabel?)
    ensures (a.BinaryExpression? <==> ScalarHead(a).BinaryLabel?)
    ensures (a.ExtractExpression? <==> ScalarHead(a).ExtractLabel?)
    ensures (a.TrimExpression? <==> ScalarHead(a).TrimLabel?)
    ensures (a.ComparisonPredicate? <==> ScalarHead(a).ComparisonLabel?)
    ensures (a.CaseExpression? <==> ScalarHead(a).CaseLabel?)
    ensures (a.ScalarSubquery? <==> ScalarHead(a).ScalarSubqueryLabel?)
    ensures (a.QuantifiedComparison? <==> ScalarHead(a).QuantifiedComparisonLabel?)
    ensures (a.BetweenPredicate? <==> ScalarHead(a).BetweenLabel?) && (a.InPredicate? <==> ScalarHead(a).InLabel?)
    ensures (a.PatternMatch? <==> ScalarHead(a).PatternMatchLabel?)
    ensures (a.TablePredicate? <==> ScalarHead(a).TablePredicateLabel?)
    ensures (a.ValueConstructor? <==> ScalarHead(a).ValueConstructorLabel?)
    ensures (a.FunctionInvocation? <==> ScalarHead(a).FunctionLabel?)
    ensures (a.BuiltinFunctionInvocation? <==> ScalarHead(a).BuiltinFunctionLabel?)
    ensures (a.BuiltinSetFunctionInvocation? <==> ScalarHead(a).BuiltinSetFunctionLabel?)
    ensures (a.NewInvocation? <==> ScalarHead(a).NewLabel?) && (a.MethodInvocation? <==> ScalarHead(a).MethodLabel?)
    ensures (a.StaticMethodInvocation? <==> ScalarHead(a).StaticMethodLabel?)
  {
  }

  predicate IsReference(a: Scalar) {
    || a.LiteralExpression? || a.VariableReference? || a.HostParameterReference?
    || a.FieldReference? || a.CurrentOfCursor? || a.PlaceholderReference?
  }

  lemma {:induction false} ReferenceIsDetermined(a: Scalar, b: Scalar)
    requires IsReference(a) && ScalarTree(a) == ScalarTree(b)
    ensures a == b
    decreases a, 0
  {
    ScalarHeadTells(a);
    ScalarHeadTells(b);
    var s, t := ScalarFields(a), ScalarFields(b);
    if a.LiteralExpression? {
      assert s[0] == t[0];
    } else if a.VariableReference? {
      assert s[0] == t[0];
      NameIsDetermined(a.name, b.name);
    } else if a.HostParameterReference? {
      assert s[0] == t[0];
    } else if a.FieldReference? {
      assert s[0] == t[0] && s[1] == t[1];
      ScalarIsDetermined(a.receiver, b.receiver);
    } else if a.CurrentOfCursor? {
      assert s[0] == t[0];
      NameIsDetermined(a.name, b.name);
    }
  }

  predicate IsOperator(a: Scalar) {
    || a.CastExpression? || a.UnaryExpression? || a.BinaryExpression?
    || a.ExtractExpression? || a.TrimExpression? || a.ComparisonPredicate?
  }

  lemma {:induction false} OperatorIsDetermined(a: Scalar, b: Scalar)
    requires IsOperator(a) && ScalarTree(a) == ScalarTree(b)
    ensures a == b
    decreases a, 0
  {
    ScalarHeadTells(a);
    ScalarHeadTells(b);
    var s, t := ScalarFields(a), ScalarFields(b);
    if a.CastExpression? {
      assert s[0] == t[0] && s[1] == t[1];
      ScalarIsDetermined(a.operand, b.operand);
      TypeIsDetermined(a.castType, b.castType);
    } else if a.UnaryExpression? {
      assert s[0] == t[0];
      ScalarIsDetermined(a.operand, b.operand);
    } else if a.BinaryExpression? {
      assert s[0] == t[0] && s[1] == t[1];
      ScalarIsDetermined(a.left, b.left);
      ScalarIsDetermined(a.right, b.right);
    } else if a.ExtractExpression? {
      assert s[0] == t[0];
      ScalarIsDetermined(a.operand, b.operand);
    } else if a.TrimExpression? {
      assert s[0] == t[0] && s[1] == t[1];
      ScalarOptIsDetermined(a.character, b.character);
      ScalarIsDetermined(a.source, b.source);
    } else if a.ComparisonPredicate? {
      assert s[0] == t[0] && s[1] == t[1];
      ScalarIsDetermined(a.left, b.left);
      ScalarIsDetermined(a.right, b.right);
    }
  }

  predicate IsPredicate(a: Scalar) {
    || a.CaseExpression? || a.ScalarSubquery? || a.QuantifiedComparison? || a.BetweenPredicate?
    || a.InPredicate? || a.PatternMatch? || a.TablePredicate?
  }

  lemma {:induction false} PredicateIsDetermined(a: Scalar, b: Scalar)
    requires IsPredicate(a) && ScalarTree(a) == ScalarTree(b)
    ensures a == b
    decreases a, 0
  {
    ScalarHeadTells(a);
    ScalarHeadTells(b);
    var s, t := ScalarFields(a), ScalarFields(b);
    if a.CaseExpression? {
      assert s[0] == t[0] && s[1] == t[1] && s[2] == t[2];
      ScalarOptIsDetermined(a.caseOperand, b.caseOperand);
      WhensAreDetermined(a.whens, b.whens);
      ScalarOptIsDetermined(a.defaultResult, b.defaultResult);
    } else if a.ScalarSubquery? {
      assert s[0] == t[0];
      QueryIsDetermined(a.query, b.query);
    } else if a.QuantifiedComparison? {
      assert s[0] == t[0] && s[1] == t[1];
      ScalarIsDetermined(a.operand, b.operand);
      QueryIsDetermined(a.query, b.query);
    } else if a.BetweenPredicate? {
      assert s[0] == t[0] && s[1] == t[1] && s[2] == t[2];
      ScalarIsDetermined(a.target, b.target);
      ScalarIsDetermined(a.left, b.left);
      ScalarIsDetermined(a.right, b.right);
    } else if a.InPredicate? {
      assert s[0] == t[0] && s[1] == t[1];
      ScalarIsDetermined(a.operand, b.operand);
      QueryIsDetermined(a.query, b.query);
    } else if a.PatternMatch? {
      assert s[0] == t[0] && s[1] == t[1] && s[2] == t[2];
      ScalarIsDetermined(a.left, b.left);
      ScalarIsDetermined(a.right, b.right);
      ScalarOptIsDetermined(a.escape, b.escape);
    } else if a.TablePredicate? {
      assert s[0] == t[0];
      QueryIsDetermined(a.query, b.query);
    }
  }

  predicate IsInvocation(a: Scalar) {
    || a.ValueConstructor? || a.FunctionInvocation? || a.BuiltinFunctionInvocation? || a.BuiltinSetFunctionInvocation?
    || a.NewInvocation? || a.MethodInvocation? || a.StaticMethodInvocation?
  }

  lemma {:induction false} InvocationIsDetermined(a: Scalar, b: Scalar)
    requires IsInvocation(a) && ScalarTree(a) == ScalarTree(b)
    ensures a == b
    decreases a, 0
  {
    ScalarHeadTells(a);
    ScalarHeadTells(b);
    var s, t := ScalarFields(a), ScalarFields(b);
    if a.ValueConstructor? {
      assert s[0] == t[0];
      ScalarsAreDetermined(a.arguments, b.arguments);
    } else if a.FunctionInvocation? {
      assert s[0] == t[0];
      assert ScalarTree(a).skipped[0] == ScalarTree(b).skipped[0];
      ScalarsAreDetermined(a.arguments, b.arguments);
      NameIsDetermined(a.functionName, b.functionName);
    } else if a.BuiltinFunctionInvocation? {
      assert s[0] == t[0];
      ScalarsAreDetermined(a.arguments, b.arguments);
    } else if a.BuiltinSetFunctionInvocation? {
      assert s[0] == t[0];
      ScalarsAreDetermined(a.arguments, b.arguments);
    } else if a.NewInvocation? {
      assert s[0] == t[0] && s[1] == t[1];
      TypeIsDetermined(a.newType, b.newType);
      ScalarsAreDetermined(a.arguments, b.arguments);
    } else if a.MethodInvocation? {
      assert s[0] == t[0] && s[1] == t[1] && s[2] == t[2];
      ScalarIsDetermined(a.receiver, b.receiver);
      ScalarsAreDetermined(a.arguments, b.arguments);
    } else if a.StaticMethodInvocation? {
      assert s[0] == t[0] && s[1] == t[1] && s[2] == t[2];
      TypeIsDetermined(a.ownerType, b.ownerType);
      ScalarsAreDetermined(a.arguments, b.arguments);
    }
  }

  lemma {:induction false} ScalarsAreDetermined(a: seq<Scalar>, b: seq<Scalar>)
    requires ScalarTrees(a) == ScalarTrees(b)
    ensures a == b
  {
    forall i | 0 <= i < |ScalarTrees(a)| ensures a[i] == b[i] {
      assert ScalarTrees(a)[i] == ScalarTrees(b)[i];
      ScalarIsDetermined(a[i], b[i]);
    }
  }

  lemma {:induction false} ScalarOptIsDetermined(a: Option<Scalar>, b: Option<Scalar>)
    requires ScalarOpt(a) == ScalarOpt(b)
    ensures a == b
  {
    assert |ScalarOpt(a)| == |ScalarOpt(b)|;
    if a.Some? {
      assert ScalarOpt(a)[0] == ScalarOpt(b)[0];
      ScalarIsDetermined(a.value, b.value);
    }
  }

  lemma {:induction false} WhensAreDetermined(a: seq<WhenClause>, b: seq<WhenClause>)
    requires WhenTrees(a) == WhenTrees(b)
    ensures a == b
  {
    forall i | 0 <= i < |WhenTrees(a)| ensures a[i] == b[i] {
      assert WhenTrees(a)[i] == WhenTrees(b)[i];
      WhenIsDetermined(a[i], b[i]);
    }
  }

  lemma {:induction false} WhenIsDetermined(a: WhenClause, b: WhenClause)
    requires WhenTree(a) == WhenTree(b)
    ensures a == b
  {
    var s, t := WhenTree(a).members, WhenTree(b).members;
    assert s[0] == t[0] && s[1] == t[1];
    ScalarIsDetermined(a.condition, b.condition);
    ScalarIsDetermined(a.result, b.result);
  }

  lemma {:induction false} SortsAreDetermined(a: seq<SortElement>, b: seq<SortElement>)
    requires SortTrees(a) == SortTrees(b)
    ensures a == b
  {
    forall i | 0 <= i < |SortTrees(a)| ensures a[i] == b[i] {
      assert SortTrees(a)[i] == SortTrees(b)[i];
      SortIsDetermined(a[i], b[i]);
    }
  }

  lemma {:induction false} SortIsDetermined(a: SortElement, b: SortElement)
    requires SortTree(a) == SortTree(b)
    ensures a == b
  {
    var s, t := SortTree(a).members, SortTree(b).members;
    assert s[0] == t[0] && s[1] == t[1];
    ScalarIsDetermined(a.key, b.key);
    NameOptIsDetermined(a.collation, b.collation);
  }

  // ---- queries and tables ------------------------------------------------------------------------

  lemma {:induction false} QueryIsDetermined(a: Query, b: Query)
    requires QueryTree(a) == QueryTree(b)
    ensures a == b
  {
    var s, t := QueryTree(a).children, QueryTree(b).children;
    if a.SelectQuery? {
      assert s[0] == t[0] && s[1] == t[1] && s[2] == t[2] && s[3] == t[3] && s[4] == t[4] && s[5] == t[5]
          && s[6] == t[6];
      SelectsAreDetermined(a.elements, b.elements);
      TablesAreDetermined(a.from, b.from);
      ScalarOptIsDetermined(a.where, b.where);
      GroupByIsDetermined(a.groupBy, b.groupBy);
      ScalarOptIsDetermined(a.having, b.having);
      SortsAreDetermined(a.orderBy, b.orderBy);
      ScalarOptIsDetermined(a.limit, b.limit);
    } else if a.QueryTableReference? {
      assert s[0] == t[0];
      NameIsDetermined(a.name, b.name);
    } else if a.TableValueConstructor? {
      assert s[0] == t[0];
      ScalarsAreDetermined(a.rows, b.rows);
    } else if a.BinaryQuery? {
      assert s[0] == t[0] && s[1] == t[1] && s[2] == t[2];
      QueryIsDetermined(a.left, b.left);
      CorrespondingIsDetermined(a.corresponding, b.corresponding);
      QueryIsDetermined(a.right, b.right);
    } else if a.WithQuery? {
      assert s[0] == t[0] && s[1] == t[1];
      WithsAreDetermined(a.clauses, b.clauses);
      QueryIsDetermined(a.body, b.body);
    }
  }

  lemma {:induction false} QueryOptIsDetermined(a: Option<Query>, b: Option<Query>)
    requires QueryOpt(a) == QueryOpt(b)
    ensures a == b
  {
    assert |QueryOpt(a)| == |QueryOpt(b)|;
    if a.Some? {
      assert QueryOpt(a)[0] == QueryOpt(b)[0];
      QueryIsDetermined(a.value, b.value);
    }
  }

  lemma {:induction false} CorrespondingIsDetermined(a: Option<seq<SimpleName>>, b: Option<seq<SimpleName>>)
    requires CorrespondingOpt(a) == CorrespondingOpt(b)
    ensures a == b
  {
    assert |CorrespondingOpt(a)| == |CorrespondingOpt(b)|;
    if a.Some? {
      assert CorrespondingOpt(a)[0] == CorrespondingOpt(b)[0];
      SimplesAreDetermined(a.value, b.value);
    }
  }

  lemma {:induction false} SelectsAreDetermined(a: seq<SelectElement>, b: seq<SelectElement>)
    requires SelectTrees(a) == SelectTrees(b)
    ensures a == b
  {
    forall i | 0 <= i < |SelectTrees(a)| ensures a[i] == b[i] {
      assert SelectTrees(a)[i] == SelectTrees(b)[i];
      SelectIsDetermined(a[i], b[i]);
    }
  }

  lemma {:induction false} SelectIsDetermined(a: SelectElement, b: SelectElement)
    requires SelectTree(a) == SelectTree(b)
    ensures a == b
  {
    var s, t := SelectTree(a).children, SelectTree(b).children;
    if a.SelectColumn? {
      assert s[0] == t[0] && s[1] == t[1];
      ScalarIsDetermined(a.value, b.value);
      SimpleOptIsDetermined(a.name, b.name);
    } else if a.SelectAsterisk? {
      assert s[0] == t[0];
      ScalarOptIsDetermined(a.qualifier, b.qualifier);
    }
  }

  lemma {:induction false} GroupByIsDetermined(a: Option<GroupByClause>, b: Option<GroupByClause>)
    requires GroupByOpt(a) == GroupByOpt(b)
    ensures a == b
  {
    assert |GroupByOpt(a)| == |GroupByOpt(b)|;
    if a.Some? {
      assert GroupByOpt(a)[0] == GroupByOpt(b)[0];
      GroupingsAreDetermined(a.value.elements, b.value.elements);
    }
  }

  lemma {:induction false} GroupingsAreDetermined(a: seq<GroupingElement>, b: seq<GroupingElement>)
    requires GroupingTrees(a) == GroupingTrees(b)
    ensures a == b
  {
    forall i | 0 <= i < |GroupingTrees(a)| ensures a[i] == b[i] {
      assert GroupingTrees(a)[i] == GroupingTrees(b)[i];
      GroupingIsDetermined(a[i], b[i]);
    }
  }

  lemma {:induction false} GroupingIsDetermined(a: GroupingElement, b: GroupingElement)
    requires GroupingTree(a) == GroupingTree(b)
    ensures a == b
  {
    var s, t := GroupingTree(a).children, GroupingTree(b).children;
    assert s[0] == t[0] && s[1] == t[1];
    ScalarIsDetermined(a.column, b.column);
    NameOptIsDetermined(a.collation, b.collation);
  }

  lemma {:induction false} WithsAreDetermined(a: seq<WithElement>, b: seq<WithElement>)
    requires WithTrees(a) == WithTrees(b)
    ensures a == b
  {
    forall i | 0 <= i < |WithTrees(a)| ensures a[i] == b[i] {
      assert WithTrees(a)[i] == WithTrees(b)[i];
      WithIsDetermined(a[i], b[i]);
    }
  }

  lemma {:induction false} WithIsDetermined(a: WithElement, b: WithElement)
    requires WithTree(a) == WithTree(b)
    ensures a == b
  {
    var s, t := WithTree(a).members, WithTree(b).members;
    assert s[0] == t[0] && s[1] == t[1] && s[2] == t[2];
    SimplesAreDetermined(a.columnNames, b.columnNames);
    QueryIsDetermined(a.expression, b.expression);
  }

  lemma {:induction false} CorrelationIsDetermined(a: Correlation, b: Correlation)
    requires CorrelationTree(a) == CorrelationTree(b)
    ensures a == b
  {
    var s, t := CorrelationTree(a).members, CorrelationTree(b).members;
    assert s[0] == t[0] && s[1] == t[1];
    SimplesAreDetermined(a.columnNames, b.columnNames);
  }

  lemma {:induction false} CorrelationOptIsDetermined(a: Option<Correlation>, b: Option<Correlation>)
    requires CorrelationOpt(a) == CorrelationOpt(b)
    ensures a == b
  {
    assert |CorrelationOpt(a)| == |CorrelationOpt(b)|;
    if a.Some? {
      assert CorrelationOpt(a)[0] == CorrelationOpt(b)[0];
      CorrelationIsDetermined(a.value, b.value);
    }
  }

  lemma {:induction false} TableIsDetermined(a: Table, b: Table)
    requires TableTree(a) == TableTree(b)
    ensures a == b
  {
    var s, t := TableTree(a).children, TableTree(b).children;
    if a.TableReference? {
      assert s[0] == t[0] && s[1] == t[1];
      NameIsDetermined(a.name, b.name);
      CorrelationOptIsDetermined(a.aliased, b.aliased);
    } else if a.Unnest? {
      assert s[0] == t[0] && s[1] == t[1];
      ScalarIsDetermined(a.scalar, b.scalar);
      CorrelationIsDetermined(a.correlation, b.correlation);
    } else if a.Join? {
      assert s[0] == t[0] && s[1] == t[1] && s[2] == t[2];
      TableIsDetermined(a.left, b.left);
      TableIsDetermined(a.right, b.right);
      JoinIsDetermined(a.specification, b.specification);
    } else if a.TableSubquery? {
      assert s[0] == t[0] && s[1] == t[1];
      QueryIsDetermined(a.query, b.query);
      CorrelationIsDetermined(a.correlation, b.correlation);
    } else if a.Apply? {
      assert s[0] == t[0] && s[1] == t[1] && s[2] == t[2];
      assert TableTree(a).skipped[0] == TableTree(b).skipped[0];
      NameIsDetermined(a.functionName, b.functionName);
      ScalarsAreDetermined(a.arguments, b.arguments);
      CorrelationIsDetermined(a.correlation, b.correlation);
      TableIsDetermined(a.operand, b.operand);
    }
  }

  lemma {:induction false} TablesAreDetermined(a: seq<Table>, b: seq<Table>)
    requires TableTrees(a) == TableTrees(b)
    ensures a == b
  {
    forall i | 0 <= i < |TableTrees(a)| ensures a[i] == b[i] {
      assert TableTrees(a)[i] == TableTrees(b)[i];
      TableIsDetermined(a[i], b[i]);
    }
  }

  lemma {:induction false} JoinIsDetermined(a: Option<JoinSpecification>, b: Option<JoinSpecification>)
    requires JoinOpt(a) == JoinOpt(b)
    ensures a == b
  {
    assert |JoinOpt(a)| == |JoinOpt(b)|;
    if a.Some? {
      assert JoinOpt(a)[0] == JoinOpt(b)[0];
      assert JoinTree(a.value).children[0] == JoinTree(b.value).children[0];
      if a.value.JoinCondition? {
        ScalarIsDetermined(a.value.expression, b.value.expression);
      } else {
        SimplesAreDetermined(a.value.columns, b.value.columns);
      }
    }
  }

  // ---- statements --------------------------------------------------------------------------------

  lemma {:induction false} ParametersAreDetermined(a: seq<StorageParameter>, b: seq<StorageParameter>)
    requires ParameterTrees(a) == ParameterTrees(b)
    ensures a == b
  {
    forall i | 0 <= i < |ParameterTrees(a)| ensures a[i] == b[i] {
      assert ParameterTrees(a)[i] == ParameterTrees(b)[i];
      ParameterIsDetermined(a[i], b[i]);
    }
  }

  lemma {:induction false} ParameterIsDetermined(a: StorageParameter, b: StorageParameter)
    requires ParameterTree(a) == ParameterTree(b)
    ensures a == b
  {
    var s, t := ParameterTree(a).members, ParameterTree(b).members;
    assert s[0] == t[0] && s[1] == t[1];
    NameIsDetermined(a.name, b.name);
    ScalarOptIsDetermined(a.value, b.value);
  }

  lemma {:induction false} ConstraintIsDetermined(a: Constraint, b: Constraint)
    requires ConstraintTree(a) == ConstraintTree(b)
    ensures a == b
  {
    var s, t := ConstraintTree(a).children, ConstraintTree(b).children;
    if a.ExpressionConstraint? {
      assert s[0] == t[0];
      ScalarIsDetermined(a.expression, b.expression);
    } else if a.KeyConstraint? {
      assert s[0] == t[0] && s[1] == t[1] && s[2] == t[2];
      SortsAreDetermined(a.keys, b.keys);
      ScalarsAreDetermined(a.values, b.values);
      ParametersAreDetermined(a.parameters, b.parameters);
    } else if a.ReferentialConstraint? {
      assert s[0] == t[0] && s[1] == t[1] && s[2] == t[2];
      SimplesAreDetermined(a.columns, b.columns);
      NameIsDetermined(a.target, b.target);
      SimplesAreDetermined(a.targetColumns, b.targetColumns);
    } else if a.IdentityConstraint? {
      assert s[0] == t[0] && s[1] == t[1] && s[2] == t[2] && s[3] == t[3];
      ScalarOptIsDetermined(a.initial, b.initial);
      ScalarOptIsDetermined(a.increment, b.increment);
      ScalarOptIsDetermined(a.min, b.min);
      ScalarOptIsDetermined(a.max, b.max);
    }
  }

  lemma {:induction false} ColumnConstraintsAreDetermined(a: seq<ColumnConstraint>, b: seq<ColumnConstraint>)
    requires ColumnConstraintTrees(a) == ColumnConstraintTrees(b)
    ensures a == b
  {
    forall i | 0 <= i < |ColumnConstraintTrees(a)| ensures a[i] == b[i] {
      assert ColumnConstraintTrees(a)[i] == ColumnConstraintTrees(b)[i];
      ColumnConstraintIsDetermined(a[i], b[i]);
    }
  }

  lemma {:induction false} ColumnConstraintIsDetermined(a: ColumnConstraint, b: ColumnConstraint)
    requires ColumnConstraintTree(a) == ColumnConstraintTree(b)
    ensures a == b
  {
    var s, t := ColumnConstraintTree(a).members, ColumnConstraintTree(b).members;
    assert s[0] == t[0] && s[1] == t[1];
    NameOptIsDetermined(a.name, b.name);
    ConstraintIsDetermined(a.body, b.body);
  }

  lemma {:induction false} ElementsAreDetermined(a: seq<TableElement>, b: seq<TableElement>)
    requires ElementTrees(a) == ElementTrees(b)
    ensures a == b
  {
    forall i | 0 <= i < |ElementTrees(a)| ensures a[i] == b[i] {
      assert ElementTrees(a)[i] == ElementTrees(b)[i];
      ElementIsDetermined(a[i], b[i]);
    }
  }

  lemma {:induction false} ElementIsDetermined(a: TableElement, b: TableElement)
    requires ElementTree(a) == ElementTree(b)
    ensures a == b
  {
    var s, t := ElementTree(a).children, ElementTree(b).children;
    if a.ColumnDefinition? {
      assert s[0] == t[0] && s[1] == t[1] && s[2] == t[2];
      TypeIsDetermined(a.columnType, b.columnType);
      ColumnConstraintsAreDetermined(a.constraints, b.constraints);
    } else if a.TableConstraint? {
      assert s[0] == t[0] && s[1] == t[1];
      NameOptIsDetermined(a.constraintName, b.constraintName);
      ConstraintIsDetermined(a.body, b.body);
    }
  }

  lemma {:induction false} ActionIsDetermined(a: AlterAction, b: AlterAction)
    requires ActionTree(a) == ActionTree(b)
    ensures a == b
  {
    var s, t := ActionTree(a).children, ActionTree(b).children;
    assert s[0] == t[0];
    if a.RenameColumn? { assert s[1] == t[1]; }
  }

  lemma {:induction false} TargetsAreDetermined(a: seq<TargetElement>, b: seq<TargetElement>)
    requires TargetTrees(a) == TargetTrees(b)
    ensures a == b
  {
    forall i | 0 <= i < |TargetTrees(a)| ensures a[i] == b[i] {
      assert TargetTrees(a)[i] == TargetTrees(b)[i];
      TargetIsDetermined(a[i], b[i]);
    }
  }

  lemma {:induction false} TargetIsDetermined(a: TargetElement, b: TargetElement)
    requires TargetTree(a) == TargetTree(b)
    ensures a == b
  {
    var s, t := TargetTree(a).members, TargetTree(b).members;
    assert s[0] == t[0] && s[1] == t[1];
    NameIsDetermined(a.target, b.target);
    SimpleOptIsDetermined(a.indicator, b.indicator);
  }

  lemma {:induction false} SetsAreDetermined(a: seq<SetElement>, b: seq<SetElement>)
    requires SetTrees(a) == SetTrees(b)
    ensures a == b
  {
    forall i | 0 <= i < |SetTrees(a)| ensures a[i] == b[i] {
      assert SetTrees(a)[i] == SetTrees(b)[i];
      SetIsDetermined(a[i], b[i]);
    }
  }

  lemma {:induction false} SetIsDetermined(a: SetElement, b: SetElement)
    requires SetTree(a) == SetTree(b)
    ensures a == b
  {
    var s, t := SetTree(a).members, SetTree(b).members;
    assert s[0] == t[0] && s[1] == t[1];
    NameIsDetermined(a.target, b.target);
    ScalarIsDetermined(a.value, b.value);
  }

  lemma {:induction false} UsersAreDetermined(a: seq<Option<SimpleName>>, b: seq<Option<SimpleName>>)
    requires UserTrees(a) == UserTrees(b)
    ensures a == b
  {
    assert |UserTrees(a)| == |UserTrees(b)|;
    forall i | 0 <= i < |a| ensures a[i] == b[i] {
      assert UserTrees(a)[i] == UserTrees(b)[i];
      SimpleOptIsDetermined(a[i], b[i]);
    }
  }

  // The tree of a statement determines the statement.
  lemma {:induction false} StatementIsDetermined(a: Statement, b: Statement)
    requires StatementTree(a) == StatementTree(b)
    ensures a == b
    decreases a, 1
  {
    if IsManipulation(a) {
      ManipulationIsDetermined(a, b);
    } else if IsDefinition(a) {
      DefinitionIsDetermined(a, b);
    } else if IsCreation(a) {
      CreationIsDetermined(a, b);
    } else {
      AlterationIsDetermined(a, b);
    }
  }

  // The kind of a node can be told from its head.
  lemma {:induction false} StatementHeadTells(a: Statement)
    ensures (a.EmptyStatement? <==> StatementHead(a).EmptyLabel?)
    ensures (a.SelectStatement? <==> StatementHead(a).SelectLabel?)
    ensures (a.InsertStatement? <==> StatementHead(a).InsertLabel?)
    ensures (a.UpdateStatement? <==> StatementHead(a).UpdateLabel?)
    ensures (a.DeleteStatement? <==> StatementHead(a).DeleteLabel?)
    ensures (a.TableDefinition? <==> StatementHead(a).TableDefinitionLabel?)
    ensures (a.IndexDefinition? <==> StatementHead(a).IndexDefinitionLabel?)
    ensures (a.ViewDefinition? <==> StatementHead(a).ViewDefinitionLabel?)
    ensures (a.SequenceDefinition? <==> StatementHead(a).SequenceDefinitionLabel?)
    ensures (a.SchemaDefinition? <==> StatementHead(a).SchemaDefinitionLabel?)
    ensures (a.AlterTable? <==> StatementHead(a).AlterTableLabel?)
    ensures (a.AlterIndex? <==> StatementHead(a).AlterIndexLabel?)
    ensures (a.DropStatement? <==> StatementHead(a).DropLabel?)
    ensures (a.TruncateTable? <==> StatementHead(a).TruncateLabel?)
    ensures (a.PrivilegeStatement? <==> StatementHead(a).PrivilegeLabel?)
  {
  }

  predicate IsManipulation(a: Statement) {
    || a.EmptyStatement? || a.SelectStatement? || a.InsertStatement?
    || a.UpdateStatement? || a.DeleteStatement?
  }

  lemma {:induction false} ManipulationIsDetermined(a: Statement, b: Statement)
    requires IsManipulation(a) && StatementTree(a) == StatementTree(b)
    ensures a == b
    decreases a, 0
  {
    StatementHeadTells(a);
    StatementHeadTells(b);
    var s, t := StatementFields(a), StatementFields(b);
    if a.SelectStatement? {
      assert s[0] == t[0] && s[1] == t[1];
      QueryIsDetermined(a.query, b.query);
      TargetsAreDetermined(a.targets, b.targets);
    } else if a.InsertStatement? {
      assert s[0] == t[0] && s[1] == t[1] && s[2] == t[2];
      NameIsDetermined(a.table, b.table);
      SimplesAreDetermined(a.columns, b.columns);
      QueryOptIsDetermined(a.source, b.source);
    } else if a.UpdateStatement? {
      assert s[0] == t[0] && s[1] == t[1] && s[2] == t[2];
      NameIsDetermined(a.table, b.table);
      SetsAreDetermined(a.assignments, b.assignments);
      ScalarOptIsDetermined(a.where, b.where);
      SimpleOptIsDetermined(a.alias, b.alias);
    } else if a.DeleteStatement? {
      assert s[0] == t[0] && s[1] == t[1];
      NameIsDetermined(a.table, b.table);
      ScalarOptIsDetermined(a.where, b.where);
      SimpleOptIsDetermined(a.alias, b.alias);
    }
  }

  predicate IsDefinition(a: Statement) { a.TableDefinition? || a.IndexDefinition? || a.ViewDefinition? }

  lemma {:induction false} DefinitionIsDetermined(a: Statement, b: Statement)
    requires IsDefinition(a) && StatementTree(a) == StatementTree(b)
    ensures a == b
    decreases a, 0
  {
    StatementHeadTells(a);
    StatementHeadTells(b);
    var s, t := StatementFields(a), StatementFields(b);
    if a.TableDefinition? {
      assert s[0] == t[0] && s[1] == t[1] && s[2] == t[2];
      NameIsDetermined(a.name, b.name);
      ElementsAreDetermined(a.elements, b.elements);
      ParametersAreDetermined(a.parameters, b.parameters);
    } else if a.IndexDefinition? {
      assert s[0] == t[0] && s[1] == t[1] && s[2] == t[2] && s[3] == t[3] && s[4] == t[4] && s[5] == t[5];
      NameOptIsDetermined(a.indexName, b.indexName);
      NameIsDetermined(a.table, b.table);
      SortsAreDetermined(a.keys, b.keys);
      ScalarsAreDetermined(a.values, b.values);
      ScalarOptIsDetermined(a.filter, b.filter);
      ParametersAreDetermined(a.parameters, b.parameters);
    } else if a.ViewDefinition? {
      assert s[0] == t[0] && s[1] == t[1] && s[2] == t[2] && s[3] == t[3];
      NameIsDetermined(a.name, b.name);
      SimplesAreDetermined(a.columns, b.columns);
      QueryIsDetermined(a.definition, b.definition);
      ParametersAreDetermined(a.parameters, b.parameters);
    }
  }

  predicate IsCreation(a: Statement) { a.SequenceDefinition? || a.SchemaDefinition? }

  lemma {:induction false} CreationIsDetermined(a: Statement, b: Statement)
    requires IsCreation(a) && StatementTree(a) == StatementTree(b)
    ensures a == b
    decreases a, 0
  {
    StatementHeadTells(a);
    StatementHeadTells(b);
    var s, t := StatementFields(a), StatementFields(b);
    if a.SequenceDefinition? {
      assert s[0] == t[0] && s[1] == t[1] && s[2] == t[2] && s[3] == t[3] && s[4] == t[4] && s[5] == t[5]
          && s[6] == t[6];
      NameIsDetermined(a.name, b.name);
      TypeOptIsDetermined(a.valueType, b.valueType);
      ScalarOptIsDetermined(a.initial, b.initial);
      ScalarOptIsDetermined(a.increment, b.increment);
      ScalarOptIsDetermined(a.min, b.min);
      ScalarOptIsDetermined(a.max, b.max);
      NameOptIsDetermined(a.owner, b.owner);
    } else if a.SchemaDefinition? {
      assert s[0] == t[0] && s[1] == t[1] && s[2] == t[2];
      NameOptIsDetermined(a.schemaName, b.schemaName);
      SimpleOptIsDetermined(a.user, b.user);
      StatementsAreDetermined(a.statements, b.statements);
    }
  }

  predicate IsAlteration(a: Statement) {
    || a.AlterTable? || a.AlterIndex? || a.DropStatement?
    || a.TruncateTable? || a.PrivilegeStatement?
  }

  lemma {:induction false} AlterationIsDetermined(a: Statement, b: Statement)
    requires IsAlteration(a) && StatementTree(a) == StatementTree(b)
    ensures a == b
    decreases a, 0
  {
    StatementHeadTells(a);
    StatementHeadTells(b);
    var s, t := StatementFields(a), StatementFields(b);
    if a.AlterTable? {
      assert s[0] == t[0] && s[1] == t[1];
      NameIsDetermined(a.name, b.name);
      ActionIsDetermined(a.action, b.action);
    } else if a.AlterIndex? {
      assert s[0] == t[0] && s[1] == t[1];
      NameIsDetermined(a.name, b.name);
      ActionIsDetermined(a.action, b.action);
    } else if a.DropStatement? {
      assert s[0] == t[0];
      NameIsDetermined(a.name, b.name);
    } else if a.TruncateTable? {
      assert s[0] == t[0];
      NameIsDetermined(a.name, b.name);
    } else if a.PrivilegeStatement? {
      assert s[0] == t[0] && s[1] == t[1];
      NamesAreDetermined(a.objects, b.objects);
      UsersAreDetermined(a.users, b.users);
    }
  }

  lemma {:induction false} StatementsAreDetermined(a: seq<Statement>, b: seq<Statement>)
    requires StatementTrees(a) == StatementTrees(b)
    ensures a == b
  {
    forall i | 0 <= i < |StatementTrees(a)| ensures a[i] == b[i] {
      assert StatementTrees(a)[i] == StatementTrees(b)[i];
      StatementIsDetermined(a[i], b[i]);
    }
  }
}
