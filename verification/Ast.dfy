/**
 The syntax tree the parser builds, one datatype per sort of node. Operator kinds, quantifiers and
 other enumerated attributes that nothing here inspects are kept as an uninterpreted `Attribute`.
 A pointer field that may be null is an `Option`.
 */
module Ast {
  import opened Options
  import opened Regions

  type Attribute = int

  // ---- names ------------------------------------------------------------------------------------

  datatype IdentifierKind = Regular | Delimited

  datatype SimpleName = SimpleName(identifier: string, kind: IdentifierKind, region: Region)

  datatype Name =
    | Simple(name: SimpleName)
    | Qualified(qualifier: Name, last: SimpleName, qualifiedRegion: Region)
  {
    function GetRegion(): Region { if Simple? then name.region else qualifiedRegion }
  }

  // ---- literals ---------------------------------------------------------------------------------

  datatype Sign = Plus | Minus

  datatype NumericKind = Exact | Approximate

  datatype Literal =
    | Numeric(kind: NumericKind, sign: Option<(Sign, Region)>, unsignedValue: string, region: Region)
    // boolean, string, datetime, interval, null, empty and default values
    | OtherLiteral(attribute: Attribute, region: Region)

  // ---- types ------------------------------------------------------------------------------------

  datatype Type =
    // simple, character_string, bit_string, octet_string, decimal, binary_numeric, datetime, interval
    | PlainType(attribute: Attribute, region: Region)
    | RowType(fields: seq<FieldDefinition>, region: Region)
    | UserDefinedType(name: Name, region: Region)
    | CollectionType(element: Type, region: Region)

  datatype FieldDefinition = FieldDefinition(name: SimpleName, fieldType: Type, collation: Option<Name>)

  // ---- scalar expressions -----------------------------------------------------------------------

  datatype UnaryOperator = UnaryPlus | UnaryMinus | Not | AtLocal | ReferenceResolution

  datatype BuiltinFunction = NextValueFor | OtherFunction(attribute: Attribute)

  datatype WhenClause = WhenClause(condition: Scalar, result: Scalar)

  datatype Scalar =
    | LiteralExpression(value: Literal, region: Region)
    | VariableReference(name: Name, region: Region)
    | HostParameterReference(parameter: SimpleName, region: Region)
    | FieldReference(receiver: Scalar, attribute: Attribute, field: SimpleName, region: Region)
    | CaseExpression(caseOperand: Option<Scalar>, whens: seq<WhenClause>, defaultResult: Option<Scalar>, region: Region)
    | CastExpression(attribute: Attribute, operand: Scalar, castType: Type, region: Region)
    | UnaryExpression(operator: UnaryOperator, operatorRegion: Region, operand: Scalar, region: Region)
    | BinaryExpression(left: Scalar, attribute: Attribute, right: Scalar, region: Region)
    | ExtractExpression(attribute: Attribute, operand: Scalar, region: Region)
    | TrimExpression(attribute: Attribute, character: Option<Scalar>, source: Scalar, region: Region)
    | ValueConstructor(attribute: Attribute, arguments: seq<Scalar>, region: Region)
    | ScalarSubquery(attribute: Attribute, query: Query, region: Region)
    | ComparisonPredicate(left: Scalar, attribute: Attribute, right: Scalar, region: Region)
    | QuantifiedComparison(operand: Scalar, attribute: Attribute, query: Query, region: Region)
    | BetweenPredicate(target: Scalar, attribute: Attribute, left: Scalar, right: Scalar, region: Region)
    | InPredicate(operand: Scalar, attribute: Attribute, query: Query, region: Region)
    | PatternMatch(left: Scalar, attribute: Attribute, right: Scalar, escape: Option<Scalar>, region: Region)
    | TablePredicate(attribute: Attribute, query: Query, region: Region)
    | FunctionInvocation(functionName: Name, arguments: seq<Scalar>, region: Region)
    | BuiltinFunctionInvocation(builtin: BuiltinFunction, arguments: seq<Scalar>, region: Region)
    | BuiltinSetFunctionInvocation(attribute: Attribute, arguments: seq<Scalar>, region: Region)
    | NewInvocation(newType: Type, arguments: seq<Scalar>, region: Region)
    | MethodInvocation(receiver: Scalar, attribute: Attribute, methodName: SimpleName, arguments: seq<Scalar>,
                       region: Region)
    | StaticMethodInvocation(ownerType: Type, methodName: SimpleName, arguments: seq<Scalar>, region: Region)
    | CurrentOfCursor(name: Name, region: Region)
    | PlaceholderReference(index: nat, region: Region)

  // ---- queries and tables -----------------------------------------------------------------------

  datatype SortElement = SortElement(key: Scalar, collation: Option<Name>)

  datatype SelectElement =
    | SelectColumn(value: Scalar, name: Option<SimpleName>, region: Region)
    | SelectAsterisk(qualifier: Option<Scalar>, region: Region)

  datatype GroupingElement = GroupingColumn(column: Scalar, collation: Option<Name>, region: Region)

  datatype GroupByClause = GroupByClause(elements: seq<GroupingElement>)

  datatype WithElement = WithElement(name: SimpleName, columnNames: seq<SimpleName>, expression: Query)

  datatype Query =
    | SelectQuery(elements: seq<SelectElement>, from: seq<Table>, where: Option<Scalar>,
                  groupBy: Option<GroupByClause>, having: Option<Scalar>, orderBy: seq<SortElement>,
                  limit: Option<Scalar>, region: Region)
    | QueryTableReference(name: Name, region: Region)
    | TableValueConstructor(rows: seq<Scalar>, region: Region)
    | BinaryQuery(left: Query, attribute: Attribute, corresponding: Option<seq<SimpleName>>, right: Query,
                  region: Region)
    | WithQuery(clauses: seq<WithElement>, body: Query, region: Region)

  datatype Correlation = Correlation(name: SimpleName, columnNames: seq<SimpleName>)

  datatype JoinSpecification =
    | JoinCondition(expression: Scalar, region: Region)
    | JoinColumns(columns: seq<SimpleName>, region: Region)

  datatype Table =
    | TableReference(name: Name, aliased: Option<Correlation>, region: Region)
    | Unnest(scalar: Scalar, correlation: Correlation, region: Region)
    | Join(left: Table, attribute: Attribute, right: Table, specification: Option<JoinSpecification>, region: Region)
    | TableSubquery(query: Query, correlation: Correlation, region: Region)
    | Apply(operand: Table, functionName: Name, arguments: seq<Scalar>, correlation: Correlation, region: Region)

  // ---- statements -------------------------------------------------------------------------------

  datatype TargetElement = TargetElement(target: Name, indicator: Option<SimpleName>)

  datatype SetElement = SetElement(target: Name, value: Scalar)

  datatype StorageParameter = StorageParameter(name: Name, value: Option<Scalar>)

  datatype Constraint =
    | SimpleConstraint(attribute: Attribute, region: Region)
    | ExpressionConstraint(attribute: Attribute, expression: Scalar, region: Region)
    | KeyConstraint(attribute: Attribute, keys: seq<SortElement>, values: seq<Scalar>,
                    parameters: seq<StorageParameter>, region: Region)
    | ReferentialConstraint(columns: seq<SimpleName>, target: Name, targetColumns: seq<SimpleName>, region: Region)
    | IdentityConstraint(initial: Option<Scalar>, increment: Option<Scalar>, min: Option<Scalar>, max: Option<Scalar>,
                         region: Region)

  datatype ColumnConstraint = ColumnConstraint(name: Option<Name>, body: Constraint)

  datatype TableElement =
    | ColumnDefinition(name: SimpleName, columnType: Type, constraints: seq<ColumnConstraint>, region: Region)
    | TableConstraint(constraintName: Option<Name>, body: Constraint, region: Region)

  datatype AlterAction =
    | RenameTable(replacement: SimpleName, region: Region)
    | RenameColumn(column: SimpleName, replacement: SimpleName, region: Region)
    | RenameIndex(replacement: SimpleName, region: Region)

  datatype Statement =
    | EmptyStatement(region: Region)
    | SelectStatement(query: Query, targets: seq<TargetElement>, region: Region)
    | InsertStatement(table: Name, columns: seq<SimpleName>, source: Option<Query>, region: Region)
    | UpdateStatement(table: Name, alias: Option<SimpleName>, assignments: seq<SetElement>, where: Option<Scalar>,
                      region: Region)
    | DeleteStatement(table: Name, alias: Option<SimpleName>, where: Option<Scalar>, region: Region)
    | TableDefinition(name: Name, elements: seq<TableElement>, parameters: seq<StorageParameter>, region: Region)
    | IndexDefinition(indexName: Option<Name>, table: Name, keys: seq<SortElement>, values: seq<Scalar>,
                      filter: Option<Scalar>, parameters: seq<StorageParameter>, region: Region)
    | ViewDefinition(name: Name, columns: seq<SimpleName>, definition: Query, parameters: seq<StorageParameter>,
                     region: Region)
    | SequenceDefinition(name: Name, valueType: Option<Type>, initial: Option<Scalar>, increment: Option<Scalar>,
                         min: Option<Scalar>, max: Option<Scalar>, owner: Option<Name>, region: Region)
    | SchemaDefinition(schemaName: Option<Name>, user: Option<SimpleName>, statements: seq<Statement>, region: Region)
    | AlterTable(name: Name, action: AlterAction, region: Region)
    | AlterIndex(name: Name, action: AlterAction, region: Region)
    | DropStatement(attribute: Attribute, name: Name, region: Region)
    | TruncateTable(name: Name, region: Region)
    | PrivilegeStatement(attribute: Attribute, objects: seq<Name>, users: seq<Option<SimpleName>>, region: Region)

  // The result of a successful parse.
  datatype CompilationUnit = CompilationUnit(statements: seq<Statement>, comments: seq<Region>)
}
