/**
 What the parser makes of a whole statement by folding literals: every unary plus and minus is folded
 as soon as its operand is, wherever the grammar allows a scalar expression. On the visited tree this
 is folding everywhere.
 */
module StatementFolding {
  import opened Options
  import opened Regions
  import opened Ast
  import opened Results
  import opened VisitedTree
  import opened TreeEncoding
  import opened LiteralFolding
  import opened TreeValidator

  // ---- folding while the tree is built -----------------------------------------------------------

  function FoldScalar(x: Scalar): Scalar {
    match x
    case FieldReference(receiver, a, field, r) => FieldReference(FoldScalar(receiver), a, field, r)
    case CastExpression(a, operand, castType, r) => CastExpression(a, FoldScalar(operand), castType, r)
    case UnaryExpression(op, opRegion, operand, r) =>
      TryFoldLiteral(UnaryExpression(op, opRegion, FoldScalar(operand), r))
    case BinaryExpression(left, a, right, r) => BinaryExpression(FoldScalar(left), a, FoldScalar(right), r)
    case ExtractExpression(a, operand, r) => ExtractExpression(a, FoldScalar(operand), r)
    case TrimExpression(a, character, source, r) => TrimExpression(a, FoldScalarOpt(character), FoldScalar(source), r)
    case ComparisonPredicate(left, a, right, r) => ComparisonPredicate(FoldScalar(left), a, FoldScalar(right), r)
    case CaseExpression(caseOperand, whens, defaultResult, r) =>
      CaseExpression(FoldScalarOpt(caseOperand), FoldWhens(whens), FoldScalarOpt(defaultResult), r)
    case ScalarSubquery(a, query, r) => ScalarSubquery(a, FoldQuery(query), r)
    case QuantifiedComparison(operand, a, query, r) =>
      QuantifiedComparison(FoldScalar(operand), a, FoldQuery(query), r)
    case BetweenPredicate(target, a, left, right, r) =>
      BetweenPredicate(FoldScalar(target), a, FoldScalar(left), FoldScalar(right), r)
    case InPredicate(operand, a, query, r) => InPredicate(FoldScalar(operand), a, FoldQuery(query), r)
    case PatternMatch(left, a, right, escape, r) =>
      PatternMatch(FoldScalar(left), a, FoldScalar(right), FoldScalarOpt(escape), r)
    case TablePredicate(a, query, r) => TablePredicate(a, FoldQuery(query), r)
    case ValueConstructor(a, arguments, r) => ValueConstructor(a, FoldScalars(arguments), r)
    case FunctionInvocation(functionName, arguments, r) => FunctionInvocation(functionName, FoldScalars(arguments), r)
    case BuiltinFunctionInvocation(builtin, arguments, r) =>
      BuiltinFunctionInvocation(builtin, FoldScalars(arguments), r)
    case BuiltinSetFunctionInvocation(a, arguments, r) => BuiltinSetFunctionInvocation(a, FoldScalars(arguments), r)
    case NewInvocation(newType, arguments, r) => NewInvocation(newType, FoldScalars(arguments), r)
    case MethodInvocation(receiver, a, methodName, arguments, r) =>
      MethodInvocation(FoldScalar(receiver), a, methodName, FoldScalars(arguments), r)
    case StaticMethodInvocation(ownerType, methodName, arguments, r) =>
      StaticMethodInvocation(ownerType, methodName, FoldScalars(arguments), r)
    case _ => x
  }

  function FoldScalars(xs: seq<Scalar>): seq<Scalar> {
    seq(|xs|, i requires 0 <= i < |xs| => FoldScalar(xs[i]))
  }

  function FoldScalarOpt(x: Option<Scalar>): Option<Scalar> { if x.Some? then Some(FoldScalar(x.value)) else None }

  function FoldWhens(xs: seq<WhenClause>): seq<WhenClause> {
    seq(|xs|, i requires 0 <= i < |xs| => FoldWhen(xs[i]))
  }

  function FoldWhen(x: WhenClause): WhenClause { WhenClause(FoldScalar(x.condition), FoldScalar(x.result)) }

  function FoldSorts(xs: seq<SortElement>): seq<SortElement> {
    seq(|xs|, i requires 0 <= i < |xs| => FoldSort(xs[i]))
  }

  function FoldSort(x: SortElement): SortElement { SortElement(FoldScalar(x.key), x.collation) }

  function FoldQuery(x: Query): Query {
    match x
    case SelectQuery(elements, from, where, groupBy, having, orderBy, limit, r) =>
      SelectQuery(FoldSelects(elements), FoldTables(from), FoldScalarOpt(where), FoldGroupBy(groupBy),
                  FoldScalarOpt(having), FoldSorts(orderBy), FoldScalarOpt(limit), r)
    case TableValueConstructor(rows, r) => TableValueConstructor(FoldScalars(rows), r)
    case BinaryQuery(left, a, corresponding, right, r) =>
      BinaryQuery(FoldQuery(left), a, corresponding, FoldQuery(right), r)
    case WithQuery(clauses, body, r) => WithQuery(FoldWiths(clauses), FoldQuery(body), r)
    case _ => x
  }

  function FoldQueryOpt(x: Option<Query>): Option<Query> { if x.Some? then Some(FoldQuery(x.value)) else None }

  function FoldSelects(xs: seq<SelectElement>): seq<SelectElement> {
    seq(|xs|, i requires 0 <= i < |xs| => FoldSelect(xs[i]))
  }

  function FoldSelect(x: SelectElement): SelectElement {
    match x
    case SelectColumn(value, name, r) => SelectColumn(FoldScalar(value), name, r)
    case SelectAsterisk(qualifier, r) => SelectAsterisk(FoldScalarOpt(qualifier), r)
  }

  function FoldGroupBy(x: Option<GroupByClause>): Option<GroupByClause> {
    if x.Some? then Some(GroupByClause(FoldGroupings(x.value.elements))) else None
  }

  function FoldGroupings(xs: seq<GroupingElement>): seq<GroupingElement> {
    seq(|xs|, i requires 0 <= i < |xs| => FoldGrouping(xs[i]))
  }

  function FoldGrouping(x: GroupingElement): GroupingElement {
    GroupingColumn(FoldScalar(x.column), x.collation, x.region)
  }

  function FoldWiths(xs: seq<WithElement>): seq<WithElement> {
    seq(|xs|, i requires 0 <= i < |xs| => FoldWith(xs[i]))
  }

  function FoldWith(x: WithElement): WithElement { WithElement(x.name, x.columnNames, FoldQuery(x.expression)) }

  function FoldTable(x: Table): Table {
    match x
    case Unnest(scalar, correlation, r) => Unnest(FoldScalar(scalar), correlation, r)
    case Join(left, a, right, specification, r) =>
      Join(FoldTable(left), a, FoldTable(right), FoldJoin(specification), r)
    case TableSubquery(query, correlation, r) => TableSubquery(FoldQuery(query), correlation, r)
    case Apply(operand, functionName, arguments, correlation, r) =>
      Apply(FoldTable(operand), functionName, FoldScalars(arguments), correlation, r)
    case _ => x
  }

  function FoldTables(xs: seq<Table>): seq<Table> {
    seq(|xs|, i requires 0 <= i < |xs| => FoldTable(xs[i]))
  }

  function FoldJoin(x: Option<JoinSpecification>): Option<JoinSpecification> {
    if x.Some? && x.value.JoinCondition? then Some(JoinCondition(FoldScalar(x.value.expression), x.value.region)) else x
  }

  function FoldParameters(xs: seq<StorageParameter>): seq<StorageParameter> {
    seq(|xs|, i requires 0 <= i < |xs| => FoldParameter(xs[i]))
  }

  function FoldParameter(x: StorageParameter): StorageParameter { StorageParameter(x.name, FoldScalarOpt(x.value)) }

  function FoldConstraint(x: Constraint): Constraint {
    match x
    case ExpressionConstraint(a, expression, r) => ExpressionConstraint(a, FoldScalar(expression), r)
    case KeyConstraint(a, keys, values, parameters, r) =>
      KeyConstraint(a, FoldSorts(keys), FoldScalars(values), FoldParameters(parameters), r)
    case IdentityConstraint(initial, increment, min, max, r) =>
      IdentityConstraint(FoldScalarOpt(initial), FoldScalarOpt(increment), FoldScalarOpt(min), FoldScalarOpt(max), r)
    case _ => x
  }

  function FoldColumnConstraints(xs: seq<ColumnConstraint>): seq<ColumnConstraint> {
    seq(|xs|, i requires 0 <= i < |xs| => FoldColumnConstraint(xs[i]))
  }

  function FoldColumnConstraint(x: ColumnConstraint): ColumnConstraint {
    ColumnConstraint(x.name, FoldConstraint(x.body))
  }

  function FoldElements(xs: seq<TableElement>): seq<TableElement> {
    seq(|xs|, i requires 0 <= i < |xs| => FoldElement(xs[i]))
  }

  function FoldElement(x: TableElement): TableElement {
    match x
    case ColumnDefinition(name, columnType, constraints, r) =>
      ColumnDefinition(name, columnType, FoldColumnConstraints(constraints), r)
    case TableConstraint(constraintName, body, r) => TableConstraint(constraintName, FoldConstraint(body), r)
  }

  function FoldSets(xs: seq<SetElement>): seq<SetElement> {
    seq(|xs|, i requires 0 <= i < |xs| => FoldSet(xs[i]))
  }

  function FoldSet(x: SetElement): SetElement { SetElement(x.target, FoldScalar(x.value)) }

  function FoldStatement(x: Statement): Statement {
    match x
    case SelectStatement(query, targets, r) => SelectStatement(FoldQuery(query), targets, r)
    case InsertStatement(table, columns, source, r) => InsertStatement(table, columns, FoldQueryOpt(source), r)
    case UpdateStatement(table, alias, assignments, where, r) =>
      UpdateStatement(table, alias, FoldSets(assignments), FoldScalarOpt(where), r)
    case DeleteStatement(table, alias, where, r) => DeleteStatement(table, alias, FoldScalarOpt(where), r)
    case TableDefinition(name, elements, parameters, r) =>
      TableDefinition(name, FoldElements(elements), FoldParameters(parameters), r)
    case IndexDefinition(indexName, table, keys, values, filter, parameters, r) =>
      IndexDefinition(indexName, table, FoldSorts(keys), FoldScalars(values), FoldScalarOpt(filter),
                      FoldParameters(parameters), r)
    case ViewDefinition(name, columns, definition, parameters, r) =>
      ViewDefinition(name, columns, FoldQuery(definition), FoldParameters(parameters), r)
    case SequenceDefinition(name, valueType, initial, increment, min, max, owner, r) =>
      SequenceDefinition(name, valueType, FoldScalarOpt(initial), FoldScalarOpt(increment), FoldScalarOpt(min),
                         FoldScalarOpt(max), owner, r)
    case SchemaDefinition(schemaName, user, statements, r) =>
      SchemaDefinition(schemaName, user, FoldStatements(statements), r)
    case _ => x
  }

  function FoldStatements(xs: seq<Statement>): seq<Statement> {
    seq(|xs|, i requires 0 <= i < |xs| => FoldStatement(xs[i]))
  }

  // ---- nothing to fold in names and types ---------------------------------------------------------

  lemma {:induction false} SimpleStays(x: SimpleName)
    ensures FoldAll(SimpleTree(x)) == SimpleTree(x)
  {
    LeafStays(SimpleTree(x));
  }

  lemma {:induction false} LiteralStays(x: Literal)
    ensures FoldAll(LiteralTree(x)) == LiteralTree(x)
  {
    LeafStays(LiteralTree(x));
  }

  lemma {:induction false} LeafStays(t: Tree)
    requires t.Node? && t.children == t.skipped == []
    ensures FoldAll(t) == t
  {
    assert FoldAlls([]) == [];
  }

  lemma {:induction false} SimplesStay(xs: seq<SimpleName>)
    ensures FoldAlls(SimpleTrees(xs)) == SimpleTrees(xs)
  {
    forall i | 0 <= i < |xs| ensures FoldAll(SimpleTrees(xs)[i]) == SimpleTrees(xs)[i] {
      SimpleStays(xs[i]);
    }
  }

  lemma {:induction false} SimpleOptStays(x: Option<SimpleName>)
    ensures FoldAlls(SimpleOpt(x)) == SimpleOpt(x)
  {
    if x.Some? { SimpleStays(x.value); }
  }

  lemma {:induction false} NameStays(x: Name)
    ensures FoldAll(NameTree(x)) == NameTree(x)
  {
    if x.Qualified? {
      NameStays(x.qualifier);
      SimpleStays(x.last);
    }
    assert FoldAlls(NameTree(x).children) == NameTree(x).children;
  }

  lemma {:induction false} NamesStay(xs: seq<Name>)
    ensures FoldAlls(NameTrees(xs)) == NameTrees(xs)
  {
    forall i | 0 <= i < |xs| ensures FoldAll(NameTrees(xs)[i]) == NameTrees(xs)[i] {
      NameStays(xs[i]);
    }
  }

  lemma {:induction false} NameOptStays(x: Option<Name>)
    ensures FoldAlls(NameOpt(x)) == NameOpt(x)
  {
    if x.Some? { NameStays(x.value); }
  }

  lemma {:induction false} TypeStays(x: Type)
    ensures FoldAll(TypeTree(x)) == TypeTree(x)
  {
    if x.RowType? {
      FieldsStay(x.fields);
    } else if x.UserDefinedType? {
      NameStays(x.name);
    } else if x.CollectionType? {
      TypeStays(x.element);
    }
    assert FoldAlls(TypeTree(x).children) == TypeTree(x).children;
  }

  lemma {:induction false} TypeOptStays(x: Option<Type>)
    ensures FoldAlls(TypeOpt(x)) == TypeOpt(x)
  {
    if x.Some? { TypeStays(x.value); }
  }

  lemma {:induction false} FieldsStay(xs: seq<FieldDefinition>)
    ensures FoldAlls(FieldTrees(xs)) == FieldTrees(xs)
  {
    forall i | 0 <= i < |xs| ensures FoldAll(FieldTrees(xs)[i]) == FieldTrees(xs)[i] {
      FieldStays(xs[i]);
    }
  }

  lemma {:induction false} FieldStays(x: FieldDefinition)
    ensures FoldAll(FieldTree(x)) == FieldTree(x)
  {
    SimpleStays(x.name);
    TypeStays(x.fieldType);
    NameOptStays(x.collation);
    assert FoldAlls(FieldTree(x).members) == FieldTree(x).members;
  }

  lemma {:induction false} CorrelationStays(x: Correlation)
    ensures FoldAll(CorrelationTree(x)) == CorrelationTree(x)
  {
    SimpleStays(x.name);
    SimplesStay(x.columnNames);
    assert FoldAlls(CorrelationTree(x).members) == CorrelationTree(x).members;
  }

  lemma {:induction false} CorrelationOptStays(x: Option<Correlation>)
    ensures FoldAlls(CorrelationOpt(x)) == CorrelationOpt(x)
  {
    if x.Some? { CorrelationStays(x.value); }
  }

  lemma {:induction false} CorrespondingStays(x: Option<seq<SimpleName>>)
    ensures FoldAlls(CorrespondingOpt(x)) == CorrespondingOpt(x)
  {
    if x.Some? { SimplesStay(x.value); }
  }

  lemma {:induction false} ActionStays(x: AlterAction)
    ensures FoldAll(ActionTree(x)) == ActionTree(x)
  {
    if x.RenameColumn? { SimpleStays(x.column); }
    SimpleStays(x.replacement);
    assert FoldAlls(ActionTree(x).children) == ActionTree(x).children;
  }

  lemma {:induction false} TargetsStay(xs: seq<TargetElement>)
    ensures FoldAlls(TargetTrees(xs)) == TargetTrees(xs)
  {
    forall i | 0 <= i < |xs| ensures FoldAll(TargetTrees(xs)[i]) == TargetTrees(xs)[i] {
      TargetStays(xs[i]);
    }
  }

  lemma {:induction false} TargetStays(x: TargetElement)
    ensures FoldAll(TargetTree(x)) == TargetTree(x)
  {
    NameStays(x.target);
    SimpleOptStays(x.indicator);
    assert FoldAlls(TargetTree(x).members) == TargetTree(x).members;
  }

  lemma {:induction false} UsersStay(xs: seq<Option<SimpleName>>)
    ensures FoldAlls(UserTrees(xs)) == UserTrees(xs)
  {
    forall i | 0 <= i < |xs| ensures FoldAll(UserTrees(xs)[i]) == UserTrees(xs)[i] {
      SimpleOptStays(xs[i]);
    }
  }

  // ---- folding while building is folding the tree everywhere --------------------------------------

  lemma {:induction false} FoldAlls1(a: Tree)
    ensures FoldAlls([a]) == [FoldAll(a)]
  {
  }

  lemma {:induction false} FoldAlls2(a: Tree, b: Tree)
    ensures FoldAlls([a, b]) == [FoldAll(a), FoldAll(b)]
  {
  }

  lemma {:induction false} FoldAlls3(a: Tree, b: Tree, c: Tree)
    ensures FoldAlls([a, b, c]) == [FoldAll(a), FoldAll(b), FoldAll(c)]
  {
  }

  lemma {:induction false} FoldAlls4(a: Tree, b: Tree, c: Tree, d: Tree)
    ensures FoldAlls([a, b, c, d]) == [FoldAll(a), FoldAll(b), FoldAll(c), FoldAll(d)]
  {
  }

  lemma {:induction false} FoldAlls5(a: Tree, b: Tree, c: Tree, d: Tree, e: Tree)
    ensures FoldAlls([a, b, c, d, e]) == [FoldAll(a), FoldAll(b), FoldAll(c), FoldAll(d), FoldAll(e)]
  {
  }

  lemma {:induction false} FoldAlls6(a: Tree, b: Tree, c: Tree, d: Tree, e: Tree, f: Tree)
    ensures FoldAlls([a, b, c, d, e, f]) == [FoldAll(a), FoldAll(b), FoldAll(c), FoldAll(d), FoldAll(e), FoldAll(f)]
  {
  }

  lemma {:induction false} FoldAlls7(a: Tree, b: Tree, c: Tree, d: Tree, e: Tree, f: Tree, g: Tree)
    ensures FoldAlls([a, b, c, d, e, f, g])
         == [FoldAll(a), FoldAll(b), FoldAll(c), FoldAll(d), FoldAll(e), FoldAll(f), FoldAll(g)]
  {
  }

  lemma {:induction false} ScalarFolds(x: Scalar)
    ensures FoldAll(ScalarTree(x)) == ScalarTree(FoldScalar(x))
    decreases x, 2
  {
    if x.UnaryExpression? {
      UnaryFolds(x);
    } else {
      ScalarFieldsFold(x);
      ScalarStaysInPlace(x);
      ScalarSkippedStays(x);
      NodeFolds(ScalarHead(x), x.region, ScalarFields(x), ScalarSkipped(x));
    }
  }

  lemma {:induction false} UnaryFolds(x: Scalar)
    requires x.UnaryExpression?
    ensures FoldAll(ScalarTree(x)) == ScalarTree(FoldScalar(x))
    decreases x, 1
  {
    ScalarFolds(x.operand);
    FoldMovesTheSign(UnaryExpression(x.operator, x.operatorRegion, FoldScalar(x.operand), x.region));
    assert FoldAlls(ScalarFields(x)) == [ScalarTree(FoldScalar(x.operand))];
  }

  // Where there is no sign, folding goes on below the node only.
  lemma {:induction false} NodeFolds(head: Label, r: Region, fields: seq<Tree>, skipped: seq<Tree>)
    requires !IsSign(head)
    ensures FoldAll(Node(head, r, fields, skipped)) == Node(head, r, FoldAlls(fields), FoldAlls(skipped))
  {
  }

  lemma {:induction false} ScalarFieldsFold(x: Scalar)
    requires !x.UnaryExpression?
    ensures FoldAlls(ScalarFields(x)) == ScalarFields(FoldScalar(x))
    decreases x, 1
  {
    if IsReference(x) {
      ReferenceFieldsFold(x);
    } else if IsOperator(x) {
      OperatorFieldsFold(x);
    } else if x.CaseExpression? || x.BetweenPredicate? || x.PatternMatch? {
      ConditionFieldsFold(x);
    } else if x.ScalarSubquery? || x.TablePredicate? {
      SubqueryFieldsFold(x);
    } else if x.QuantifiedComparison? || x.InPredicate? {
      QuantifiedFieldsFold(x);
    } else if x.NewInvocation? || x.MethodInvocation? || x.StaticMethodInvocation? {
      MethodFieldsFold(x);
    } else {
      ConstructionFieldsFold(x);
    }
  }

  // Folding below a node keeps its kind and its region, and finds nothing in what the visitor skips.
  lemma {:induction false} ScalarStaysInPlace(x: Scalar)
    requires !x.UnaryExpression?
    ensures ScalarHead(FoldScalar(x)) == ScalarHead(x) && !IsSign(ScalarHead(x))
    ensures FoldScalar(x).region == x.region
  {
    if IsReference(x) || IsOperator(x) {
      assert ScalarHead(FoldScalar(x)) == ScalarHead(x);
    } else if IsPredicate(x) {
      assert ScalarHead(FoldScalar(x)) == ScalarHead(x);
    }
  }

  lemma {:induction false} ScalarSkippedStays(x: Scalar)
    requires !x.UnaryExpression?
    ensures FoldAlls(ScalarSkipped(x)) == ScalarSkipped(FoldScalar(x))
  {
    if x.FunctionInvocation? { NameStays(x.functionName); }
  }

  lemma {:induction false} ReferenceFieldsFold(x: Scalar)
    requires IsReference(x)
    ensures FoldAlls(ScalarFields(x)) == ScalarFields(FoldScalar(x))
    decreases x, 0
  {
    if x.LiteralExpression? {
      LiteralStays(x.value);
      FoldAlls1(LiteralTree(x.value));
    } else if x.VariableReference? {
      NameStays(x.name);
      FoldAlls1(NameTree(x.name));
    } else if x.HostParameterReference? {
      SimpleStays(x.parameter);
      FoldAlls1(SimpleTree(x.parameter));
    } else if x.FieldReference? {
      ScalarFolds(x.receiver);
      SimpleStays(x.field);
      FoldAlls2(ScalarTree(x.receiver), SimpleTree(x.field));
    } else if x.CurrentOfCursor? {
      NameStays(x.name);
      FoldAlls1(NameTree(x.name));
    }
  }

  lemma {:induction false} OperatorFieldsFold(x: Scalar)
    requires IsOperator(x) && !x.UnaryExpression?
    ensures FoldAlls(ScalarFields(x)) == ScalarFields(FoldScalar(x))
    decreases x, 0
  {
    if x.CastExpression? {
      ScalarFolds(x.operand);
      TypeStays(x.castType);
      FoldAlls2(ScalarTree(x.operand), TypeTree(x.castType));
    } else if x.BinaryExpression? {
      ScalarFolds(x.left);
      ScalarFolds(x.right);
      FoldAlls2(ScalarTree(x.left), ScalarTree(x.right));
    } else if x.ExtractExpression? {
      ScalarFolds(x.operand);
      FoldAlls1(ScalarTree(x.operand));
    } else if x.TrimExpression? {
      ScalarOptFolds(x.character);
      ScalarFolds(x.source);
      FoldAlls2(Group(ScalarOpt(x.character)), ScalarTree(x.source));
    } else if x.ComparisonPredicate? {
      ScalarFolds(x.left);
      ScalarFolds(x.right);
      FoldAlls2(ScalarTree(x.left), ScalarTree(x.right));
    }
  }

  lemma {:induction false} ConditionFieldsFold(x: Scalar)
    requires x.CaseExpression? || x.BetweenPredicate? || x.PatternMatch?
    ensures FoldAlls(ScalarFields(x)) == ScalarFields(FoldScalar(x))
    decreases x, 0
  {
    if x.CaseExpression? {
      ScalarOptFolds(x.caseOperand);
      WhensFold(x.whens);
      ScalarOptFolds(x.defaultResult);
      FoldAlls3(Group(ScalarOpt(x.caseOperand)), Group(WhenTrees(x.whens)), Group(ScalarOpt(x.defaultResult)));
    } else if x.BetweenPredicate? {
      ScalarFolds(x.target);
      ScalarFolds(x.left);
      ScalarFolds(x.right);
      FoldAlls3(ScalarTree(x.target), ScalarTree(x.left), ScalarTree(x.right));
    } else if x.PatternMatch? {
      ScalarFolds(x.left);
      ScalarFolds(x.right);
      ScalarOptFolds(x.escape);
      FoldAlls3(ScalarTree(x.left), ScalarTree(x.right), Group(ScalarOpt(x.escape)));
    }
  }

  lemma {:induction false} SubqueryFieldsFold(x: Scalar)
    requires x.ScalarSubquery? || x.TablePredicate?
    ensures FoldAlls(ScalarFields(x)) == ScalarFields(FoldScalar(x))
    decreases x, 0
  {
    if x.ScalarSubquery? {
      QueryFolds(x.query);
      FoldAlls1(QueryTree(x.query));
    } else if x.TablePredicate? {
      QueryFolds(x.query);
      FoldAlls1(QueryTree(x.query));
    }
  }

  lemma {:induction false} QuantifiedFieldsFold(x: Scalar)
    requires x.QuantifiedComparison? || x.InPredicate?
    ensures FoldAlls(ScalarFields(x)) == ScalarFields(FoldScalar(x))
    decreases x, 0
  {
    if x.QuantifiedComparison? {
      ScalarFolds(x.operand);
      QueryFolds(x.query);
      FoldAlls2(ScalarTree(x.operand), QueryTree(x.query));
    } else if x.InPredicate? {
      ScalarFolds(x.operand);
      QueryFolds(x.query);
      FoldAlls2(ScalarTree(x.operand), QueryTree(x.query));
    }
  }

  lemma {:induction false} MethodFieldsFold(x: Scalar)
    requires x.NewInvocation? || x.MethodInvocation? || x.StaticMethodInvocation?
    ensures FoldAlls(ScalarFields(x)) == ScalarFields(FoldScalar(x))
    decreases x, 0
  {
    if x.NewInvocation? {
      TypeStays(x.newType);
      ScalarsFold(x.arguments);
      FoldAlls2(TypeTree(x.newType), Group(ScalarTrees(x.arguments)));
    } else if x.MethodInvocation? {
      ScalarFolds(x.receiver);
      SimpleStays(x.methodName);
      ScalarsFold(x.arguments);
      FoldAlls3(ScalarTree(x.receiver), SimpleTree(x.methodName), Group(ScalarTrees(x.arguments)));
    } else if x.StaticMethodInvocation? {
      TypeStays(x.ownerType);
      SimpleStays(x.methodName);
      ScalarsFold(x.arguments);
      FoldAlls3(TypeTree(x.ownerType), SimpleTree(x.methodName), Group(ScalarTrees(x.arguments)));
    }
  }

  lemma {:induction false} ConstructionFieldsFold(x: Scalar)
    requires || x.ValueConstructor? || x.FunctionInvocation?
             || x.BuiltinFunctionInvocation? || x.BuiltinSetFunctionInvocation?
    ensures FoldAlls(ScalarFields(x)) == ScalarFields(FoldScalar(x))
    decreases x, 0
  {
    if x.ValueConstructor? {
      ScalarsFold(x.arguments);
      FoldAlls1(Group(ScalarTrees(x.arguments)));
    } else if x.FunctionInvocation? {
      ScalarsFold(x.arguments);
      FoldAlls1(Group(ScalarTrees(x.arguments)));
    } else if x.BuiltinFunctionInvocation? {
      ScalarsFold(x.arguments);
      FoldAlls1(Group(ScalarTrees(x.arguments)));
    } else if x.BuiltinSetFunctionInvocation? {
      ScalarsFold(x.arguments);
      FoldAlls1(Group(ScalarTrees(x.arguments)));
    }
  }

  lemma {:induction false} ScalarsFold(xs: seq<Scalar>)
    ensures FoldAlls(ScalarTrees(xs)) == ScalarTrees(FoldScalars(xs))
  {
    forall i | 0 <= i < |xs| ensures FoldAll(ScalarTrees(xs)[i]) == ScalarTrees(FoldScalars(xs))[i] {
      ScalarFolds(xs[i]);
    }
  }

  lemma {:induction false} ScalarOptFolds(x: Option<Scalar>)
    ensures FoldAlls(ScalarOpt(x)) == ScalarOpt(FoldScalarOpt(x))
  {
    if x.Some? { ScalarFolds(x.value); }
  }

  lemma {:induction false} WhensFold(xs: seq<WhenClause>)
    ensures FoldAlls(WhenTrees(xs)) == WhenTrees(FoldWhens(xs))
  {
    forall i | 0 <= i < |xs| ensures FoldAll(WhenTrees(xs)[i]) == WhenTrees(FoldWhens(xs))[i] {
      WhenFolds(xs[i]);
    }
  }

  lemma {:induction false} WhenFolds(x: WhenClause)
    ensures FoldAll(WhenTree(x)) == WhenTree(FoldWhen(x))
  {
    ScalarFolds(x.condition);
    ScalarFolds(x.result);
    assert FoldAlls(WhenTree(x).members) == WhenTree(FoldWhen(x)).members;
  }

  lemma {:induction false} SortsFold(xs: seq<SortElement>)
    ensures FoldAlls(SortTrees(xs)) == SortTrees(FoldSorts(xs))
  {
    forall i | 0 <= i < |xs| ensures FoldAll(SortTrees(xs)[i]) == SortTrees(FoldSorts(xs))[i] {
      SortFolds(xs[i]);
    }
  }

  lemma {:induction false} SortFolds(x: SortElement)
    ensures FoldAll(SortTree(x)) == SortTree(FoldSort(x))
  {
    ScalarFolds(x.key);
    NameOptStays(x.collation);
    assert FoldAlls(SortTree(x).members) == SortTree(FoldSort(x)).members;
  }

  lemma {:induction false} QueryFolds(x: Query)
    ensures FoldAll(QueryTree(x)) == QueryTree(FoldQuery(x))
  {
    if x.SelectQuery? {
      SelectsFold(x.elements);
      TablesFold(x.from);
      ScalarOptFolds(x.where);
      GroupByFolds(x.groupBy);
      ScalarOptFolds(x.having);
      SortsFold(x.orderBy);
      ScalarOptFolds(x.limit);
      assert FoldAlls(QueryTree(x).children) == QueryTree(FoldQuery(x)).children;
    } else if x.QueryTableReference? {
      NameStays(x.name);
      assert FoldAlls(QueryTree(x).children) == QueryTree(FoldQuery(x)).children;
    } else if x.TableValueConstructor? {
      ScalarsFold(x.rows);
      assert FoldAlls(QueryTree(x).children) == QueryTree(FoldQuery(x)).children;
    } else if x.BinaryQuery? {
      QueryFolds(x.left);
      CorrespondingStays(x.corresponding);
      QueryFolds(x.right);
      assert FoldAlls(QueryTree(x).children) == QueryTree(FoldQuery(x)).children;
    } else if x.WithQuery? {
      WithsFold(x.clauses);
      QueryFolds(x.body);
      assert FoldAlls(QueryTree(x).children) == QueryTree(FoldQuery(x)).children;
    }
  }

  lemma {:induction false} QueryOptFolds(x: Option<Query>)
    ensures FoldAlls(QueryOpt(x)) == QueryOpt(FoldQueryOpt(x))
  {
    if x.Some? { QueryFolds(x.value); }
  }

  lemma {:induction false} SelectsFold(xs: seq<SelectElement>)
    ensures FoldAlls(SelectTrees(xs)) == SelectTrees(FoldSelects(xs))
  {
    forall i | 0 <= i < |xs| ensures FoldAll(SelectTrees(xs)[i]) == SelectTrees(FoldSelects(xs))[i] {
      SelectFolds(xs[i]);
    }
  }

  lemma {:induction false} SelectFolds(x: SelectElement)
    ensures FoldAll(SelectTree(x)) == SelectTree(FoldSelect(x))
  {
    if x.SelectColumn? {
      ScalarFolds(x.value);
      SimpleOptStays(x.name);
    } else if x.SelectAsterisk? {
      ScalarOptFolds(x.qualifier);
    }
    assert FoldAlls(SelectTree(x).children) == SelectTree(FoldSelect(x)).children;
  }

  lemma {:induction false} GroupByFolds(x: Option<GroupByClause>)
    ensures FoldAlls(GroupByOpt(x)) == GroupByOpt(FoldGroupBy(x))
  {
    if x.Some? { GroupingsFold(x.value.elements); }
  }

  lemma {:induction false} GroupingsFold(xs: seq<GroupingElement>)
    ensures FoldAlls(GroupingTrees(xs)) == GroupingTrees(FoldGroupings(xs))
  {
    forall i | 0 <= i < |xs| ensures FoldAll(GroupingTrees(xs)[i]) == GroupingTrees(FoldGroupings(xs))[i] {
      GroupingFolds(xs[i]);
    }
  }

  lemma {:induction false} GroupingFolds(x: GroupingElement)
    ensures FoldAll(GroupingTree(x)) == GroupingTree(FoldGrouping(x))
  {
    ScalarFolds(x.column);
    NameOptStays(x.collation);
    assert FoldAlls(GroupingTree(x).children) == GroupingTree(FoldGrouping(x)).children;
  }

  lemma {:induction false} WithsFold(xs: seq<WithElement>)
    ensures FoldAlls(WithTrees(xs)) == WithTrees(FoldWiths(xs))
  {
    forall i | 0 <= i < |xs| ensures FoldAll(WithTrees(xs)[i]) == WithTrees(FoldWiths(xs))[i] {
      WithFolds(xs[i]);
    }
  }

  lemma {:induction false} WithFolds(x: WithElement)
    ensures FoldAll(WithTree(x)) == WithTree(FoldWith(x))
  {
    SimpleStays(x.name);
    SimplesStay(x.columnNames);
    QueryFolds(x.expression);
    assert FoldAlls(WithTree(x).members) == WithTree(FoldWith(x)).members;
  }

  lemma {:induction false} TableFolds(x: Table)
    ensures FoldAll(TableTree(x)) == TableTree(FoldTable(x))
  {
    if x.TableReference? {
      NameStays(x.name);
      CorrelationOptStays(x.aliased);
      assert FoldAlls(TableTree(x).children) == TableTree(FoldTable(x)).children;
    } else if x.Unnest? {
      ScalarFolds(x.scalar);
      CorrelationStays(x.correlation);
      assert FoldAlls(TableTree(x).children) == TableTree(FoldTable(x)).children;
    } else if x.Join? {
      TableFolds(x.left);
      TableFolds(x.right);
      JoinFolds(x.specification);
      assert FoldAlls(TableTree(x).children) == TableTree(FoldTable(x)).children;
    } else if x.TableSubquery? {
      QueryFolds(x.query);
      CorrelationStays(x.correlation);
      assert FoldAlls(TableTree(x).children) == TableTree(FoldTable(x)).children;
    } else if x.Apply? {
      NameStays(x.functionName);
      ScalarsFold(x.arguments);
      CorrelationStays(x.correlation);
      TableFolds(x.operand);
      assert FoldAlls(TableTree(x).children) == TableTree(FoldTable(x)).children;
    }
    assert FoldAlls(TableTree(x).skipped) == TableTree(FoldTable(x)).skipped;
  }

  lemma {:induction false} TablesFold(xs: seq<Table>)
    ensures FoldAlls(TableTrees(xs)) == TableTrees(FoldTables(xs))
  {
    forall i | 0 <= i < |xs| ensures FoldAll(TableTrees(xs)[i]) == TableTrees(FoldTables(xs))[i] {
      TableFolds(xs[i]);
    }
  }

  lemma {:induction false} JoinFolds(x: Option<JoinSpecification>)
    ensures FoldAlls(JoinOpt(x)) == JoinOpt(FoldJoin(x))
  {
    if x.Some? {
      if x.value.JoinCondition? { ScalarFolds(x.value.expression); } else { SimplesStay(x.value.columns); }
      assert FoldAlls(JoinTree(x.value).children) == JoinTree(FoldJoin(x).value).children;
      assert FoldAll(JoinTree(x.value)) == JoinTree(FoldJoin(x).value);
    }
  }

  lemma {:induction false} ParametersFold(xs: seq<StorageParameter>)
    ensures FoldAlls(ParameterTrees(xs)) == ParameterTrees(FoldParameters(xs))
  {
    forall i | 0 <= i < |xs| ensures FoldAll(ParameterTrees(xs)[i]) == ParameterTrees(FoldParameters(xs))[i] {
      ParameterFolds(xs[i]);
    }
  }

  lemma {:induction false} ParameterFolds(x: StorageParameter)
    ensures FoldAll(ParameterTree(x)) == ParameterTree(FoldParameter(x))
  {
    NameStays(x.name);
    ScalarOptFolds(x.value);
    assert FoldAlls(ParameterTree(x).members) == ParameterTree(FoldParameter(x)).members;
  }

  lemma {:induction false} ConstraintFolds(x: Constraint)
    ensures FoldAll(ConstraintTree(x)) == ConstraintTree(FoldConstraint(x))
  {
    if x.ExpressionConstraint? {
      ScalarFolds(x.expression);
      assert FoldAlls(ConstraintTree(x).children) == ConstraintTree(FoldConstraint(x)).children;
    } else if x.KeyConstraint? {
      SortsFold(x.keys);
      ScalarsFold(x.values);
      ParametersFold(x.parameters);
      assert FoldAlls(ConstraintTree(x).children) == ConstraintTree(FoldConstraint(x)).children;
    } else if x.ReferentialConstraint? {
      SimplesStay(x.columns);
      NameStays(x.target);
      SimplesStay(x.targetColumns);
      assert FoldAlls(ConstraintTree(x).children) == ConstraintTree(FoldConstraint(x)).children;
    } else if x.IdentityConstraint? {
      ScalarOptFolds(x.initial);
      ScalarOptFolds(x.increment);
      ScalarOptFolds(x.min);
      ScalarOptFolds(x.max);
      assert FoldAlls(ConstraintTree(x).children) == ConstraintTree(FoldConstraint(x)).children;
    }
    assert FoldAlls(ConstraintTree(x).children) == ConstraintTree(FoldConstraint(x)).children;
  }

  lemma {:induction false} ColumnConstraintsFold(xs: seq<ColumnConstraint>)
    ensures FoldAlls(ColumnConstraintTrees(xs)) == ColumnConstraintTrees(FoldColumnConstraints(xs))
  {
    forall i | 0 <= i < |xs|
      ensures FoldAll(ColumnConstraintTrees(xs)[i]) == ColumnConstraintTrees(FoldColumnConstraints(xs))[i]
    {
      ColumnConstraintFolds(xs[i]);
    }
  }

  lemma {:induction false} ColumnConstraintFolds(x: ColumnConstraint)
    ensures FoldAll(ColumnConstraintTree(x)) == ColumnConstraintTree(FoldColumnConstraint(x))
  {
    NameOptStays(x.name);
    ConstraintFolds(x.body);
    assert FoldAlls(ColumnConstraintTree(x).members) == ColumnConstraintTree(FoldColumnConstraint(x)).members;
  }

  lemma {:induction false} ElementsFold(xs: seq<TableElement>)
    ensures FoldAlls(ElementTrees(xs)) == ElementTrees(FoldElements(xs))
  {
    forall i | 0 <= i < |xs| ensures FoldAll(ElementTrees(xs)[i]) == ElementTrees(FoldElements(xs))[i] {
      ElementFolds(xs[i]);
    }
  }

  lemma {:induction false} ElementFolds(x: TableElement)
    ensures FoldAll(ElementTree(x)) == ElementTree(FoldElement(x))
  {
    if x.ColumnDefinition? {
      SimpleStays(x.name);
      TypeStays(x.columnType);
      ColumnConstraintsFold(x.constraints);
    } else if x.TableConstraint? {
      NameOptStays(x.constraintName);
      ConstraintFolds(x.body);
    }
    assert FoldAlls(ElementTree(x).children) == ElementTree(FoldElement(x)).children;
  }

  lemma {:induction false} SetsFold(xs: seq<SetElement>)
    ensures FoldAlls(SetTrees(xs)) == SetTrees(FoldSets(xs))
  {
    forall i | 0 <= i < |xs| ensures FoldAll(SetTrees(xs)[i]) == SetTrees(FoldSets(xs))[i] {
      SetFolds(xs[i]);
    }
  }

  lemma {:induction false} SetFolds(x: SetElement)
    ensures FoldAll(SetTree(x)) == SetTree(FoldSet(x))
  {
    NameStays(x.target);
    ScalarFolds(x.value);
    assert FoldAlls(SetTree(x).members) == SetTree(FoldSet(x)).members;
  }

  lemma {:induction false} StatementFolds(x: Statement)
    ensures FoldAll(StatementTree(x)) == StatementTree(FoldStatement(x))
    decreases x, 2
  {
    StatementFieldsFold(x);
    StatementStaysInPlace(x);
    StatementSkippedStays(x);
    NodeFolds(StatementHead(x), x.region, StatementFields(x), StatementSkipped(x));
  }

  lemma {:induction false} StatementFieldsFold(x: Statement)
    ensures FoldAlls(StatementFields(x)) == StatementFields(FoldStatement(x))
    decreases x, 1
  {
    if IsManipulation(x) {
      ManipulationFieldsFold(x);
    } else if IsDefinition(x) {
      DefinitionFieldsFold(x);
    } else if IsCreation(x) {
      CreationFieldsFold(x);
    } else {
      AlterationFieldsFold(x);
    }
  }

  lemma {:induction false} StatementStaysInPlace(x: Statement)
    ensures StatementHead(FoldStatement(x)) == StatementHead(x) && !IsSign(StatementHead(x))
    ensures FoldStatement(x).region == x.region
  {
  }

  lemma {:induction false} StatementSkippedStays(x: Statement)
    ensures FoldAlls(StatementSkipped(x)) == StatementSkipped(FoldStatement(x))
  {
    if x.UpdateStatement? || x.DeleteStatement? { SimpleOptStays(x.alias); }
  }

  lemma {:induction false} ManipulationFieldsFold(x: Statement)
    requires IsManipulation(x)
    ensures FoldAlls(StatementFields(x)) == StatementFields(FoldStatement(x))
    decreases x, 0
  {
    if x.SelectStatement? {
      QueryFolds(x.query);
      TargetsStay(x.targets);
      FoldAlls2(QueryTree(x.query), Group(TargetTrees(x.targets)));
    } else if x.InsertStatement? {
      NameStays(x.table);
      SimplesStay(x.columns);
      QueryOptFolds(x.source);
      FoldAlls3(NameTree(x.table), Group(SimpleTrees(x.columns)), Group(QueryOpt(x.source)));
    } else if x.UpdateStatement? {
      NameStays(x.table);
      SetsFold(x.assignments);
      ScalarOptFolds(x.where);
      FoldAlls3(NameTree(x.table), Group(SetTrees(x.assignments)), Group(ScalarOpt(x.where)));
    } else if x.DeleteStatement? {
      NameStays(x.table);
      ScalarOptFolds(x.where);
      FoldAlls2(NameTree(x.table), Group(ScalarOpt(x.where)));
    }
  }

  lemma {:induction false} DefinitionFieldsFold(x: Statement)
    requires IsDefinition(x)
    ensures FoldAlls(StatementFields(x)) == StatementFields(FoldStatement(x))
    decreases x, 0
  {
    if x.TableDefinition? {
      NameStays(x.name);
      ElementsFold(x.elements);
      ParametersFold(x.parameters);
      FoldAlls3(NameTree(x.name), Group(ElementTrees(x.elements)), Group(ParameterTrees(x.parameters)));
    } else if x.IndexDefinition? {
      NameOptStays(x.indexName);
      NameStays(x.table);
      SortsFold(x.keys);
      ScalarsFold(x.values);
      ScalarOptFolds(x.filter);
      ParametersFold(x.parameters);
      FoldAlls6(Group(NameOpt(x.indexName)), NameTree(x.table), Group(SortTrees(x.keys)),
                Group(ScalarTrees(x.values)), Group(ScalarOpt(x.filter)), Group(ParameterTrees(x.parameters)));
    } else if x.ViewDefinition? {
      NameStays(x.name);
      SimplesStay(x.columns);
      QueryFolds(x.definition);
      ParametersFold(x.parameters);
      FoldAlls4(NameTree(x.name), Group(SimpleTrees(x.columns)), QueryTree(x.definition),
                Group(ParameterTrees(x.parameters)));
    }
  }

  lemma {:induction false} CreationFieldsFold(x: Statement)
    requires IsCreation(x)
    ensures FoldAlls(StatementFields(x)) == StatementFields(FoldStatement(x))
    decreases x, 0
  {
    if x.SequenceDefinition? {
      NameStays(x.name);
      TypeOptStays(x.valueType);
      ScalarOptFolds(x.initial);
      ScalarOptFolds(x.increment);
      ScalarOptFolds(x.min);
      ScalarOptFolds(x.max);
      NameOptStays(x.owner);
      FoldAlls7(NameTree(x.name), Group(TypeOpt(x.valueType)), Group(ScalarOpt(x.initial)),
                Group(ScalarOpt(x.increment)), Group(ScalarOpt(x.min)), Group(ScalarOpt(x.max)),
                Group(NameOpt(x.owner)));
    } else if x.SchemaDefinition? {
      NameOptStays(x.schemaName);
      SimpleOptStays(x.user);
      StatementsFold(x.statements);
      FoldAlls3(Group(NameOpt(x.schemaName)), Group(SimpleOpt(x.user)), Group(StatementTrees(x.statements)));
    }
  }

  lemma {:induction false} AlterationFieldsFold(x: Statement)
    requires IsAlteration(x)
    ensures FoldAlls(StatementFields(x)) == StatementFields(FoldStatement(x))
    decreases x, 0
  {
    if x.AlterTable? {
      NameStays(x.name);
      ActionStays(x.action);
      FoldAlls2(NameTree(x.name), ActionTree(x.action));
    } else if x.AlterIndex? {
      NameStays(x.name);
      ActionStays(x.action);
      FoldAlls2(NameTree(x.name), ActionTree(x.action));
    } else if x.DropStatement? {
      NameStays(x.name);
      FoldAlls1(NameTree(x.name));
    } else if x.TruncateTable? {
      NameStays(x.name);
      FoldAlls1(NameTree(x.name));
    } else if x.PrivilegeStatement? {
      NamesStay(x.objects);
      UsersStay(x.users);
      FoldAlls2(Group(NameTrees(x.objects)), Group(UserTrees(x.users)));
    }
  }

  lemma {:induction false} StatementsFold(xs: seq<Statement>)
    ensures FoldAlls(StatementTrees(xs)) == StatementTrees(FoldStatements(xs))
  {
    forall i | 0 <= i < |xs| ensures FoldAll(StatementTrees(xs)[i]) == StatementTrees(FoldStatements(xs))[i] {
      StatementFolds(xs[i]);
    }
  }

  // ---- whole statements --------------------------------------------------------------------------

  // What the parser hands out has no sign directly over an unsigned number, in nested queries either;
  // folding it again changes nothing, and folding changes exactly the statements with such a sign.
  lemma {:induction false} StatementsAreNormal(s: Statement)
    ensures Normal(StatementTree(FoldStatement(s)))
    ensures FoldStatement(FoldStatement(s)) == FoldStatement(s)
    ensures FoldStatement(s) == s <==> Normal(StatementTree(s))
  {
    var t := StatementTree(s);
    StatementFolds(s);
    StatementFolds(FoldStatement(s));
    FoldAllIsIdempotent(t);
    FoldingEverywhereNormalizes(t);
    StatementIsDetermined(FoldStatement(FoldStatement(s)), FoldStatement(s));
    if Normal(t) { StatementIsDetermined(FoldStatement(s), s); }
  }

  // Its meaning is that of the statement as written, whatever a statement, a query or a row means,
  // and so is the number of plus and of minus signs.
  lemma {:induction false} StatementsKeepTheirMeaning<R(!new), V>(s: Statement, m: Semantics<R, V>, sign: Sign)
    ensures Eval(StatementTree(FoldStatement(s)), m) == Eval(StatementTree(s), m)
    ensures Signs(StatementTree(FoldStatement(s)), sign) == Signs(StatementTree(s), sign)
  {
    var t := StatementTree(s);
    StatementFolds(s);
    FoldAllIsEverywhere(t, []);
    FoldingKeepsTheMeaning(t, Everywhere, [], m);
    FoldingKeepsSigns(t, Everywhere, [], sign);
  }

  // The validator counts one node less for every fold in what it visits.
  lemma {:induction false} StatementsShrink(s: Statement)
    ensures Nodes(StatementTree(FoldStatement(s))) + Fires(StatementTree(s), Everywhere, []) == Nodes(StatementTree(s))
    ensures Height(StatementTree(FoldStatement(s))) <= Height(StatementTree(s))
  {
    var t := StatementTree(s);
    StatementFolds(s);
    FoldAllIsEverywhere(t, []);
    FoldingRemovesNodes(t, Everywhere, []);
  }

  // Folding never makes the validator reject what it would have accepted unfolded.
  lemma {:induction false} FoldingKeepsAcceptance(ss: seq<Statement>, nodeLimit: nat, depthLimit: nat)
    requires Validation(ss, nodeLimit, depthLimit).diagnostic.None?
    ensures Validation(FoldStatements(ss), nodeLimit, depthLimit).diagnostic.None?
  {
    StatementsFold(ss);
    FoldEachIsFoldAlls(StatementTrees(ss));
    FoldingRemovesNodesOf(StatementTrees(ss), Everywhere, [], 0);
    RejectsExactlyBeyondLimits(StatementTrees(ss), nodeLimit, depthLimit);
    RejectsExactlyBeyondLimits(StatementTrees(FoldStatements(ss)), nodeLimit, depthLimit);
  }

  lemma {:induction false} FoldEachIsFoldAlls(ts: seq<Tree>)
    ensures FoldEach(ts, Everywhere, [], 0) == FoldAlls(ts)
  {
    FoldAllsIsEverywhere(ts, [], 0);
  }
}
