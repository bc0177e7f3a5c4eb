/**
 What folding is for, said of the syntax alone: in what the parser hands out, no plus or minus stands
 directly over an unsigned number, in any expression, query, table or statement.
 */
module FoldedSyntax {
  import opened Options
  import opened Regions
  import opened Ast
  import opened VisitedTree
  import opened TreeEncoding
  import opened LiteralFolding
  import opened StatementFolding

  // ---- no sign over an unsigned number, anywhere --------------------------------------------------

  predicate ScalarIsFolded(x: Scalar) {
    match x
    case FieldReference(receiver, _, _, _) => ScalarIsFolded(receiver)
    case CastExpression(_, operand, _, _) => ScalarIsFolded(operand)
    case UnaryExpression(operator, _, operand, _) =>
      && !((operator.UnaryPlus? || operator.UnaryMinus?)
           && operand.LiteralExpression? && operand.value.Numeric? && operand.value.sign.None?)
      && ScalarIsFolded(operand)
    case BinaryExpression(left, _, right, _) => ScalarIsFolded(left) && ScalarIsFolded(right)
    case ExtractExpression(_, operand, _) => ScalarIsFolded(operand)
    case TrimExpression(_, character, source, _) => ScalarOptIsFolded(character) && ScalarIsFolded(source)
    case ComparisonPredicate(left, _, right, _) => ScalarIsFolded(left) && ScalarIsFolded(right)
    case CaseExpression(caseOperand, whens, defaultResult, _) =>
      ScalarOptIsFolded(caseOperand) && WhensAreFolded(whens) && ScalarOptIsFolded(defaultResult)
    case ScalarSubquery(_, query, _) => QueryIsFolded(query)
    case QuantifiedComparison(operand, _, query, _) => ScalarIsFolded(operand) && QueryIsFolded(query)
    case BetweenPredicate(target, _, left, right, _) =>
      ScalarIsFolded(target) && ScalarIsFolded(left) && ScalarIsFolded(right)
    case InPredicate(operand, _, query, _) => ScalarIsFolded(operand) && QueryIsFolded(query)
    case PatternMatch(left, _, right, escape, _) =>
      ScalarIsFolded(left) && ScalarIsFolded(right) && ScalarOptIsFolded(escape)
    case TablePredicate(_, query, _) => QueryIsFolded(query)
    case ValueConstructor(_, arguments, _) => ScalarsAreFolded(arguments)
    case FunctionInvocation(_, arguments, _) => ScalarsAreFolded(arguments)
    case BuiltinFunctionInvocation(_, arguments, _) => ScalarsAreFolded(arguments)
    case BuiltinSetFunctionInvocation(_, arguments, _) => ScalarsAreFolded(arguments)
    case NewInvocation(_, arguments, _) => ScalarsAreFolded(arguments)
    case MethodInvocation(receiver, _, _, arguments, _) => ScalarIsFolded(receiver) && ScalarsAreFolded(arguments)
    case StaticMethodInvocation(_, _, arguments, _) => ScalarsAreFolded(arguments)
    case _ => true
  }

  predicate ScalarsAreFolded(xs: seq<Scalar>) { forall i | 0 <= i < |xs| :: ScalarIsFolded(xs[i]) }

  predicate ScalarOptIsFolded(x: Option<Scalar>) { x.Some? ==> ScalarIsFolded(x.value) }

  predicate WhensAreFolded(xs: seq<WhenClause>) { forall i | 0 <= i < |xs| :: WhenIsFolded(xs[i]) }

  predicate WhenIsFolded(x: WhenClause) { ScalarIsFolded(x.condition) && ScalarIsFolded(x.result) }

  predicate SortsAreFolded(xs: seq<SortElement>) { forall i | 0 <= i < |xs| :: SortIsFolded(xs[i]) }

  predicate SortIsFolded(x: SortElement) { ScalarIsFolded(x.key) }

  predicate QueryIsFolded(x: Query) {
    match x
    case SelectQuery(elements, from, where, groupBy, having, orderBy, limit, _) =>
      && SelectsAreFolded(elements) && TablesAreFolded(from) && ScalarOptIsFolded(where) && GroupByIsFolded(groupBy)
      && ScalarOptIsFolded(having) && SortsAreFolded(orderBy) && ScalarOptIsFolded(limit)
    case TableValueConstructor(rows, _) => ScalarsAreFolded(rows)
    case BinaryQuery(left, _, _, right, _) => QueryIsFolded(left) && QueryIsFolded(right)
    case WithQuery(clauses, body, _) => WithsAreFolded(clauses) && QueryIsFolded(body)
    case _ => true
  }

  predicate QueryOptIsFolded(x: Option<Query>) { x.Some? ==> QueryIsFolded(x.value) }

  predicate SelectsAreFolded(xs: seq<SelectElement>) { forall i | 0 <= i < |xs| :: SelectIsFolded(xs[i]) }

  predicate SelectIsFolded(x: SelectElement) {
    match x
    case SelectColumn(value, _, _) => ScalarIsFolded(value)
    case SelectAsterisk(qualifier, _) => ScalarOptIsFolded(qualifier)
  }

  predicate GroupByIsFolded(x: Option<GroupByClause>) { x.Some? ==> GroupingsAreFolded(x.value.elements) }

  predicate GroupingsAreFolded(xs: seq<GroupingElement>) { forall i | 0 <= i < |xs| :: GroupingIsFolded(xs[i]) }

  predicate GroupingIsFolded(x: GroupingElement) { ScalarIsFolded(x.column) }

  predicate WithsAreFolded(xs: seq<WithElement>) { forall i | 0 <= i < |xs| :: WithIsFolded(xs[i]) }

  predicate WithIsFolded(x: WithElement) { QueryIsFolded(x.expression) }

  predicate TableIsFolded(x: Table) {
    match x
    case Unnest(scalar, _, _) => ScalarIsFolded(scalar)
    case Join(left, _, right, specification, _) =>
      TableIsFolded(left) && TableIsFolded(right) && JoinIsFolded(specification)
    case TableSubquery(query, _, _) => QueryIsFolded(query)
    case Apply(operand, _, arguments, _, _) => ScalarsAreFolded(arguments) && TableIsFolded(operand)
    case _ => true
  }

  predicate TablesAreFolded(xs: seq<Table>) { forall i | 0 <= i < |xs| :: TableIsFolded(xs[i]) }

  predicate JoinIsFolded(x: Option<JoinSpecification>) {
    x.Some? && x.value.JoinCondition? ==> ScalarIsFolded(x.value.expression)
  }

  predicate ParametersAreFolded(xs: seq<StorageParameter>) { forall i | 0 <= i < |xs| :: ParameterIsFolded(xs[i]) }

  predicate ParameterIsFolded(x: StorageParameter) { ScalarOptIsFolded(x.value) }

  predicate ConstraintIsFolded(x: Constraint) {
    match x
    case ExpressionConstraint(_, expression, _) => ScalarIsFolded(expression)
    case KeyConstraint(_, keys, values, parameters, _) =>
      SortsAreFolded(keys) && ScalarsAreFolded(values) && ParametersAreFolded(parameters)
    case IdentityConstraint(initial, increment, min, max, _) =>
      ScalarOptIsFolded(initial) && ScalarOptIsFolded(increment) && ScalarOptIsFolded(min) && ScalarOptIsFolded(max)
    case _ => true
  }

  predicate ColumnConstraintsAreFolded(xs: seq<ColumnConstraint>) {
    forall i | 0 <= i < |xs| :: ColumnConstraintIsFolded(xs[i])
  }

  predicate ColumnConstraintIsFolded(x: ColumnConstraint) { ConstraintIsFolded(x.body) }

  predicate ElementsAreFolded(xs: seq<TableElement>) { forall i | 0 <= i < |xs| :: ElementIsFolded(xs[i]) }

  predicate ElementIsFolded(x: TableElement) {
    match x
    case ColumnDefinition(_, _, constraints, _) => ColumnConstraintsAreFolded(constraints)
    case TableConstraint(_, body, _) => ConstraintIsFolded(body)
  }

  predicate SetsAreFolded(xs: seq<SetElement>) { forall i | 0 <= i < |xs| :: SetIsFolded(xs[i]) }

  predicate SetIsFolded(x: SetElement) { ScalarIsFolded(x.value) }

  predicate StatementIsFolded(x: Statement) {
    match x
    case SelectStatement(query, _, _) => QueryIsFolded(query)
    case InsertStatement(_, _, source, _) => QueryOptIsFolded(source)
    case UpdateStatement(_, _, assignments, where, _) => SetsAreFolded(assignments) && ScalarOptIsFolded(where)
    case DeleteStatement(_, _, where, _) => ScalarOptIsFolded(where)
    case TableDefinition(_, elements, parameters, _) => ElementsAreFolded(elements) && ParametersAreFolded(parameters)
    case IndexDefinition(_, _, keys, values, filter, parameters, _) =>
      SortsAreFolded(keys) && ScalarsAreFolded(values) && ScalarOptIsFolded(filter) && ParametersAreFolded(parameters)
    case ViewDefinition(_, _, definition, parameters, _) =>
      QueryIsFolded(definition) && ParametersAreFolded(parameters)
    case SequenceDefinition(_, _, initial, increment, min, max, _, _) =>
      ScalarOptIsFolded(initial) && ScalarOptIsFolded(increment) && ScalarOptIsFolded(min) && ScalarOptIsFolded(max)
    case SchemaDefinition(_, _, statements, _) => StatementsAreFolded(statements)
    case _ => true
  }

  predicate StatementsAreFolded(xs: seq<Statement>) { forall i | 0 <= i < |xs| :: StatementIsFolded(xs[i]) }

  // ---- folding gets there, and only changes what is not there yet ---------------------------------

  lemma {:induction false} FoldsScalar(x: Scalar)
    ensures ScalarIsFolded(FoldScalar(x)) && (ScalarIsFolded(x) ==> FoldScalar(x) == x)
    decreases x, 1
  {
    if IsReference(x) {
      FoldsReference(x);
    } else if IsOperator(x) {
      FoldsOperator(x);
    } else if x.CaseExpression? || x.BetweenPredicate? || x.PatternMatch? {
      FoldsCondition(x);
    } else if x.ScalarSubquery? || x.QuantifiedComparison? || x.InPredicate? || x.TablePredicate? {
      FoldsNested(x);
    } else if x.NewInvocation? || x.MethodInvocation? || x.StaticMethodInvocation? {
      FoldsMethod(x);
    } else {
      FoldsConstruction(x);
    }
  }

  lemma {:induction false} FoldsReference(x: Scalar)
    requires IsReference(x)
    ensures ScalarIsFolded(FoldScalar(x)) && (ScalarIsFolded(x) ==> FoldScalar(x) == x)
    decreases x, 0
  {
    if x.FieldReference? {
      FoldsScalar(x.receiver);
    }
  }

  lemma {:induction false} FoldsOperator(x: Scalar)
    requires IsOperator(x)
    ensures ScalarIsFolded(FoldScalar(x)) && (ScalarIsFolded(x) ==> FoldScalar(x) == x)
    decreases x, 0
  {
    if x.CastExpression? {
      FoldsScalar(x.operand);
    } else if x.UnaryExpression? {
      FoldsScalar(x.operand);
    } else if x.BinaryExpression? {
      FoldsScalar(x.left);
      FoldsScalar(x.right);
    } else if x.ExtractExpression? {
      FoldsScalar(x.operand);
    } else if x.TrimExpression? {
      FoldsScalarOpt(x.character);
      FoldsScalar(x.source);
    } else if x.ComparisonPredicate? {
      FoldsScalar(x.left);
      FoldsScalar(x.right);
    }
  }

  lemma {:induction false} FoldsCondition(x: Scalar)
    requires x.CaseExpression? || x.BetweenPredicate? || x.PatternMatch?
    ensures ScalarIsFolded(FoldScalar(x)) && (ScalarIsFolded(x) ==> FoldScalar(x) == x)
    decreases x, 0
  {
    if x.CaseExpression? {
      FoldsScalarOpt(x.caseOperand);
      FoldsWhens(x.whens);
      FoldsScalarOpt(x.defaultResult);
    } else if x.BetweenPredicate? {
      FoldsScalar(x.target);
      FoldsScalar(x.left);
      FoldsScalar(x.right);
    } else if x.PatternMatch? {
      FoldsScalar(x.left);
      FoldsScalar(x.right);
      FoldsScalarOpt(x.escape);
    }
  }

  lemma {:induction false} FoldsNested(x: Scalar)
    requires x.ScalarSubquery? || x.QuantifiedComparison? || x.InPredicate? || x.TablePredicate?
    ensures ScalarIsFolded(FoldScalar(x)) && (ScalarIsFolded(x) ==> FoldScalar(x) == x)
    decreases x, 0
  {
    if x.ScalarSubquery? {
      FoldsQuery(x.query);
    } else if x.QuantifiedComparison? {
      FoldsScalar(x.operand);
      FoldsQuery(x.query);
    } else if x.InPredicate? {
      FoldsScalar(x.operand);
      FoldsQuery(x.query);
    } else if x.TablePredicate? {
      FoldsQuery(x.query);
    }
  }

  lemma {:induction false} FoldsMethod(x: Scalar)
    requires x.NewInvocation? || x.MethodInvocation? || x.StaticMethodInvocation?
    ensures ScalarIsFolded(FoldScalar(x)) && (ScalarIsFolded(x) ==> FoldScalar(x) == x)
    decreases x, 0
  {
    if x.NewInvocation? {
      FoldsScalars(x.arguments);
    } else if x.MethodInvocation? {
      FoldsScalar(x.receiver);
      FoldsScalars(x.arguments);
    } else if x.StaticMethodInvocation? {
      FoldsScalars(x.arguments);
    }
  }

  lemma {:induction false} FoldsConstruction(x: Scalar)
    requires || x.ValueConstructor? || x.FunctionInvocation?
             || x.BuiltinFunctionInvocation? || x.BuiltinSetFunctionInvocation?
    ensures ScalarIsFolded(FoldScalar(x)) && (ScalarIsFolded(x) ==> FoldScalar(x) == x)
    decreases x, 0
  {
    if x.ValueConstructor? {
      FoldsScalars(x.arguments);
    } else if x.FunctionInvocation? {
      FoldsScalars(x.arguments);
    } else if x.BuiltinFunctionInvocation? {
      FoldsScalars(x.arguments);
    } else if x.BuiltinSetFunctionInvocation? {
      FoldsScalars(x.arguments);
    }
  }

  lemma {:induction false} FoldsScalars(xs: seq<Scalar>)
    ensures ScalarsAreFolded(FoldScalars(xs)) && (ScalarsAreFolded(xs) ==> FoldScalars(xs) == xs)
  {
    forall i | 0 <= i < |xs|
      ensures ScalarIsFolded(FoldScalar(xs[i]))
      ensures ScalarIsFolded(xs[i]) ==> FoldScalar(xs[i]) == xs[i]
    {
      FoldsScalar(xs[i]);
    }
  }

  lemma {:induction false} FoldsScalarOpt(x: Option<Scalar>)
    ensures ScalarOptIsFolded(FoldScalarOpt(x)) && (ScalarOptIsFolded(x) ==> FoldScalarOpt(x) == x)
  {
    if x.Some? { FoldsScalar(x.value); }
  }

  lemma {:induction false} FoldsWhens(xs: seq<WhenClause>)
    ensures WhensAreFolded(FoldWhens(xs)) && (WhensAreFolded(xs) ==> FoldWhens(xs) == xs)
  {
    forall i | 0 <= i < |xs|
      ensures WhenIsFolded(FoldWhen(xs[i]))
      ensures WhenIsFolded(xs[i]) ==> FoldWhen(xs[i]) == xs[i]
    {
      FoldsWhen(xs[i]);
    }
  }

  lemma {:induction false} FoldsWhen(x: WhenClause)
    ensures WhenIsFolded(FoldWhen(x)) && (WhenIsFolded(x) ==> FoldWhen(x) == x)
  {
    FoldsScalar(x.condition);
    FoldsScalar(x.result);
  }

  lemma {:induction false} FoldsSorts(xs: seq<SortElement>)
    ensures SortsAreFolded(FoldSorts(xs)) && (SortsAreFolded(xs) ==> FoldSorts(xs) == xs)
  {
    forall i | 0 <= i < |xs|
      ensures SortIsFolded(FoldSort(xs[i]))
      ensures SortIsFolded(xs[i]) ==> FoldSort(xs[i]) == xs[i]
    {
      FoldsSort(xs[i]);
    }
  }

  lemma {:induction false} FoldsSort(x: SortElement)
    ensures SortIsFolded(FoldSort(x)) && (SortIsFolded(x) ==> FoldSort(x) == x)
  {
    FoldsScalar(x.key);
  }

  lemma {:induction false} FoldsQuery(x: Query)
    ensures QueryIsFolded(FoldQuery(x)) && (QueryIsFolded(x) ==> FoldQuery(x) == x)
  {
    if x.SelectQuery? {
      FoldsSelects(x.elements);
      FoldsTables(x.from);
      FoldsScalarOpt(x.where);
      FoldsGroupBy(x.groupBy);
      FoldsScalarOpt(x.having);
      FoldsSorts(x.orderBy);
      FoldsScalarOpt(x.limit);
    } else if x.TableValueConstructor? {
      FoldsScalars(x.rows);
    } else if x.BinaryQuery? {
      FoldsQuery(x.left);
      FoldsQuery(x.right);
    } else if x.WithQuery? {
      FoldsWiths(x.clauses);
      FoldsQuery(x.body);
    }
  }

  lemma {:induction false} FoldsQueryOpt(x: Option<Query>)
    ensures QueryOptIsFolded(FoldQueryOpt(x)) && (QueryOptIsFolded(x) ==> FoldQueryOpt(x) == x)
  {
    if x.Some? { FoldsQuery(x.value); }
  }

  lemma {:induction false} FoldsSelects(xs: seq<SelectElement>)
    ensures SelectsAreFolded(FoldSelects(xs)) && (SelectsAreFolded(xs) ==> FoldSelects(xs) == xs)
  {
    forall i | 0 <= i < |xs|
      ensures SelectIsFolded(FoldSelect(xs[i]))
      ensures SelectIsFolded(xs[i]) ==> FoldSelect(xs[i]) == xs[i]
    {
      FoldsSelect(xs[i]);
    }
  }

  lemma {:induction false} FoldsSelect(x: SelectElement)
    ensures SelectIsFolded(FoldSelect(x)) && (SelectIsFolded(x) ==> FoldSelect(x) == x)
  {
    if x.SelectColumn? {
      FoldsScalar(x.value);
    } else if x.SelectAsterisk? {
      FoldsScalarOpt(x.qualifier);
    }
  }

  lemma {:induction false} FoldsGroupBy(x: Option<GroupByClause>)
    ensures GroupByIsFolded(FoldGroupBy(x)) && (GroupByIsFolded(x) ==> FoldGroupBy(x) == x)
  {
    if x.Some? { FoldsGroupings(x.value.elements); }
  }

  lemma {:induction false} FoldsGroupings(xs: seq<GroupingElement>)
    ensures GroupingsAreFolded(FoldGroupings(xs)) && (GroupingsAreFolded(xs) ==> FoldGroupings(xs) == xs)
  {
    forall i | 0 <= i < |xs|
      ensures GroupingIsFolded(FoldGrouping(xs[i]))
      ensures GroupingIsFolded(xs[i]) ==> FoldGrouping(xs[i]) == xs[i]
    {
      FoldsGrouping(xs[i]);
    }
  }

  lemma {:induction false} FoldsGrouping(x: GroupingElement)
    ensures GroupingIsFolded(FoldGrouping(x)) && (GroupingIsFolded(x) ==> FoldGrouping(x) == x)
  {
    FoldsScalar(x.column);
  }

  lemma {:induction false} FoldsWiths(xs: seq<WithElement>)
    ensures WithsAreFolded(FoldWiths(xs)) && (WithsAreFolded(xs) ==> FoldWiths(xs) == xs)
  {
    forall i | 0 <= i < |xs|
      ensures WithIsFolded(FoldWith(xs[i]))
      ensures WithIsFolded(xs[i]) ==> FoldWith(xs[i]) == xs[i]
    {
      FoldsWith(xs[i]);
    }
  }

  lemma {:induction false} FoldsWith(x: WithElement)
    ensures WithIsFolded(FoldWith(x)) && (WithIsFolded(x) ==> FoldWith(x) == x)
  {
    FoldsQuery(x.expression);
  }

  lemma {:induction false} FoldsTable(x: Table)
    ensures TableIsFolded(FoldTable(x)) && (TableIsFolded(x) ==> FoldTable(x) == x)
  {
    if x.Unnest? {
      FoldsScalar(x.scalar);
    } else if x.Join? {
      FoldsTable(x.left);
      FoldsTable(x.right);
      FoldsJoin(x.specification);
    } else if x.TableSubquery? {
      FoldsQuery(x.query);
    } else if x.Apply? {
      FoldsScalars(x.arguments);
      FoldsTable(x.operand);
    }
  }

  lemma {:induction false} FoldsTables(xs: seq<Table>)
    ensures TablesAreFolded(FoldTables(xs)) && (TablesAreFolded(xs) ==> FoldTables(xs) == xs)
  {
    forall i | 0 <= i < |xs|
      ensures TableIsFolded(FoldTable(xs[i]))
      ensures TableIsFolded(xs[i]) ==> FoldTable(xs[i]) == xs[i]
    {
      FoldsTable(xs[i]);
    }
  }

  lemma {:induction false} FoldsJoin(x: Option<JoinSpecification>)
    ensures JoinIsFolded(FoldJoin(x)) && (JoinIsFolded(x) ==> FoldJoin(x) == x)
  {
    if x.Some? && x.value.JoinCondition? { FoldsScalar(x.value.expression); }
  }

  lemma {:induction false} FoldsParameters(xs: seq<StorageParameter>)
    ensures ParametersAreFolded(FoldParameters(xs)) && (ParametersAreFolded(xs) ==> FoldParameters(xs) == xs)
  {
    forall i | 0 <= i < |xs|
      ensures ParameterIsFolded(FoldParameter(xs[i]))
      ensures ParameterIsFolded(xs[i]) ==> FoldParameter(xs[i]) == xs[i]
    {
      FoldsParameter(xs[i]);
    }
  }

  lemma {:induction false} FoldsParameter(x: StorageParameter)
    ensures ParameterIsFolded(FoldParameter(x)) && (ParameterIsFolded(x) ==> FoldParameter(x) == x)
  {
    FoldsScalarOpt(x.value);
  }

  lemma {:induction false} FoldsConstraint(x: Constraint)
    ensures ConstraintIsFolded(FoldConstraint(x)) && (ConstraintIsFolded(x) ==> FoldConstraint(x) == x)
  {
    if x.ExpressionConstraint? {
      FoldsScalar(x.expression);
    } else if x.KeyConstraint? {
      FoldsSorts(x.keys);
      FoldsScalars(x.values);
      FoldsParameters(x.parameters);
    } else if x.IdentityConstraint? {
      FoldsScalarOpt(x.initial);
      FoldsScalarOpt(x.increment);
      FoldsScalarOpt(x.min);
      FoldsScalarOpt(x.max);
    }
  }

  lemma {:induction false} FoldsColumnConstraints(xs: seq<ColumnConstraint>)
    ensures ColumnConstraintsAreFolded(FoldColumnConstraints(xs))
    ensures ColumnConstraintsAreFolded(xs) ==> FoldColumnConstraints(xs) == xs
  {
    forall i | 0 <= i < |xs|
      ensures ColumnConstraintIsFolded(FoldColumnConstraint(xs[i]))
      ensures ColumnConstraintIsFolded(xs[i]) ==> FoldColumnConstraint(xs[i]) == xs[i]
    {
      FoldsColumnConstraint(xs[i]);
    }
  }

  lemma {:induction false} FoldsColumnConstraint(x: ColumnConstraint)
    ensures ColumnConstraintIsFolded(FoldColumnConstraint(x))
    ensures ColumnConstraintIsFolded(x) ==> FoldColumnConstraint(x) == x
  {
    FoldsConstraint(x.body);
  }

  lemma {:induction false} FoldsElements(xs: seq<TableElement>)
    ensures ElementsAreFolded(FoldElements(xs)) && (ElementsAreFolded(xs) ==> FoldElements(xs) == xs)
  {
    forall i | 0 <= i < |xs|
      ensures ElementIsFolded(FoldElement(xs[i]))
      ensures ElementIsFolded(xs[i]) ==> FoldElement(xs[i]) == xs[i]
    {
      FoldsElement(xs[i]);
    }
  }

  lemma {:induction false} FoldsElement(x: TableElement)
    ensures ElementIsFolded(FoldElement(x)) && (ElementIsFolded(x) ==> FoldElement(x) == x)
  {
    if x.ColumnDefinition? {
      FoldsColumnConstraints(x.constraints);
    } else if x.TableConstraint? {
      FoldsConstraint(x.body);
    }
  }

  lemma {:induction false} FoldsSets(xs: seq<SetElement>)
    ensures SetsAreFolded(FoldSets(xs)) && (SetsAreFolded(xs) ==> FoldSets(xs) == xs)
  {
    forall i | 0 <= i < |xs|
      ensures SetIsFolded(FoldSet(xs[i]))
      ensures SetIsFolded(xs[i]) ==> FoldSet(xs[i]) == xs[i]
    {
      FoldsSet(xs[i]);
    }
  }

  lemma {:induction false} FoldsSet(x: SetElement)
    ensures SetIsFolded(FoldSet(x)) && (SetIsFolded(x) ==> FoldSet(x) == x)
  {
    FoldsScalar(x.value);
  }

  lemma {:induction false} FoldsStatement(x: Statement)
    ensures StatementIsFolded(FoldStatement(x)) && (StatementIsFolded(x) ==> FoldStatement(x) == x)
    decreases x, 1
  {
    if IsManipulation(x) {
      FoldsManipulation(x);
    } else if IsDefinition(x) {
      FoldsDefinition(x);
    } else if IsCreation(x) {
      FoldsCreation(x);
    } else {
      FoldsAlteration(x);
    }
  }

  lemma {:induction false} FoldsManipulation(x: Statement)
    requires IsManipulation(x)
    ensures StatementIsFolded(FoldStatement(x)) && (StatementIsFolded(x) ==> FoldStatement(x) == x)
    decreases x, 0
  {
    if x.SelectStatement? {
      FoldsQuery(x.query);
    } else if x.InsertStatement? {
      FoldsQueryOpt(x.source);
    } else if x.UpdateStatement? {
      FoldsSets(x.assignments);
      FoldsScalarOpt(x.where);
    } else if x.DeleteStatement? {
      FoldsScalarOpt(x.where);
    }
  }

  lemma {:induction false} FoldsDefinition(x: Statement)
    requires IsDefinition(x)
    ensures StatementIsFolded(FoldStatement(x)) && (StatementIsFolded(x) ==> FoldStatement(x) == x)
    decreases x, 0
  {
    if x.TableDefinition? {
      FoldsElements(x.elements);
      FoldsParameters(x.parameters);
    } else if x.IndexDefinition? {
      FoldsSorts(x.keys);
      FoldsScalars(x.values);
      FoldsScalarOpt(x.filter);
      FoldsParameters(x.parameters);
    } else if x.ViewDefinition? {
      FoldsQuery(x.definition);
      FoldsParameters(x.parameters);
    }
  }

  lemma {:induction false} FoldsCreation(x: Statement)
    requires IsCreation(x)
    ensures StatementIsFolded(FoldStatement(x)) && (StatementIsFolded(x) ==> FoldStatement(x) == x)
    decreases x, 0
  {
    if x.SequenceDefinition? {
      FoldsScalarOpt(x.initial);
      FoldsScalarOpt(x.increment);
      FoldsScalarOpt(x.min);
      FoldsScalarOpt(x.max);
    } else if x.SchemaDefinition? {
      FoldsStatements(x.statements);
    }
  }

  lemma {:induction false} FoldsAlteration(x: Statement)
    requires IsAlteration(x)
    ensures StatementIsFolded(FoldStatement(x)) && (StatementIsFolded(x) ==> FoldStatement(x) == x)
    decreases x, 0
  {
  }

  lemma {:induction false} FoldsStatements(xs: seq<Statement>)
    ensures StatementsAreFolded(FoldStatements(xs)) && (StatementsAreFolded(xs) ==> FoldStatements(xs) == xs)
  {
    forall i | 0 <= i < |xs|
      ensures StatementIsFolded(FoldStatement(xs[i]))
      ensures StatementIsFolded(xs[i]) ==> FoldStatement(xs[i]) == xs[i]
    {
      FoldsStatement(xs[i]);
    }
  }

  // ---- whole statements --------------------------------------------------------------------------

  // The statement the parser hands out has no sign over an unsigned number, in nested queries either;
  // folding changes exactly the statements that have one, so folding twice is folding once; and those
  // without one are the statements whose trees are in normal form.
  lemma {:induction false} ParsedStatementsAreFolded(s: Statement)
    ensures StatementIsFolded(FoldStatement(s))
    ensures FoldStatement(s) == s <==> StatementIsFolded(s)
    ensures FoldStatement(FoldStatement(s)) == FoldStatement(s)
    ensures Normal(StatementTree(s)) <==> StatementIsFolded(s)
  {
    FoldsStatement(s);
    FoldsStatement(FoldStatement(s));
    StatementsAreNormal(s);
  }

  // Folding moves no node: every expression, query, table and statement keeps its region.
  lemma {:induction false} ScalarsStayInPlace(e: Scalar)
    ensures FoldScalar(e).region == e.region
  {
  }

  lemma {:induction false} OthersStayInPlace(q: Query, t: Table, s: Statement)
    ensures FoldQuery(q).region == q.region && FoldTable(t).region == t.region
    ensures FoldStatement(s).region == s.region
  {
  }
}
