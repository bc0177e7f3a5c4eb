/**
 The tree that `sql_tree_validator` walks over: for every kind of syntax node, the fields its visitor
 accepts, in the order it accepts them, and apart from those the fields it skips. Nothing of the syntax
 is left out: `TreeEncoding` shows that the tree determines it.
 */
module VisitedTree {
  import opened Options
  import opened Regions
  import opened Ast

  // The kind of a node, with what the node holds besides its region and the nodes below it.
  datatype Label =
    | SimpleNameLabel(identifier: string, nameKind: IdentifierKind)
    | QualifiedNameLabel
    | NumericLabel(kind: NumericKind, sign: Option<(Sign, Region)>, unsignedValue: string)
    | OtherLiteralLabel(attribute: Attribute)
    | PlainTypeLabel(attribute: Attribute)
    | RowTypeLabel
    | UserDefinedTypeLabel
    | CollectionTypeLabel
    | LiteralExpressionLabel
    | VariableLabel
    | HostParameterLabel
    | FieldReferenceLabel(attribute: Attribute)
    | CaseLabel
    | CastLabel(attribute: Attribute)
    | UnaryLabel(operator: UnaryOperator, operatorRegion: Region)
    | BinaryLabel(attribute: Attribute)
    | ExtractLabel(attribute: Attribute)
    | TrimLabel(attribute: Attribute)
    | ValueConstructorLabel(attribute: Attribute)
    | ScalarSubqueryLabel(attribute: Attribute)
    | ComparisonLabel(attribute: Attribute)
    | QuantifiedComparisonLabel(attribute: Attribute)
    | BetweenLabel(attribute: Attribute)
    | InLabel(attribute: Attribute)
    | PatternMatchLabel(attribute: Attribute)
    | TablePredicateLabel(attribute: Attribute)
    | FunctionLabel
    | BuiltinFunctionLabel(builtin: BuiltinFunction)
    | BuiltinSetFunctionLabel(attribute: Attribute)
    | NewLabel
    | MethodLabel(attribute: Attribute)
    | StaticMethodLabel
    | CurrentOfLabel
    | PlaceholderLabel(index: nat)
    | SelectColumnLabel
    | SelectAsteriskLabel
    | GroupingColumnLabel
    | SelectQueryLabel
    | QueryTableLabel
    | TableValueLabel
    | BinaryQueryLabel(attribute: Attribute)
    | WithQueryLabel
    | TableReferenceLabel
    | UnnestLabel
    | JoinLabel(attribute: Attribute)
    | TableSubqueryLabel
    | ApplyLabel
    | JoinConditionLabel
    | JoinColumnsLabel
    | SimpleConstraintLabel(attribute: Attribute)
    | ExpressionConstraintLabel(attribute: Attribute)
    | KeyConstraintLabel(attribute: Attribute)
    | ReferentialConstraintLabel
    | IdentityConstraintLabel
    | ColumnDefinitionLabel
    | TableConstraintLabel
    | RenameTableLabel
    | RenameColumnLabel
    | RenameIndexLabel
    | EmptyLabel
    | SelectLabel
    | InsertLabel
    | UpdateLabel
    | DeleteLabel
    | TableDefinitionLabel
    | IndexDefinitionLabel
    | ViewDefinitionLabel
    | SequenceDefinitionLabel
    | SchemaDefinitionLabel
    | AlterTableLabel
    | AlterIndexLabel
    | DropLabel(attribute: Attribute)
    | TruncateLabel
    | PrivilegeLabel(attribute: Attribute)

  // A `Group` stands for a field that is not itself a node: a list, an optional value, or a clause.
  // The visitor goes through its members without counting it or going a level deeper.
  datatype Tree =
    | Node(head: Label, region: Region, children: seq<Tree>, skipped: seq<Tree>)
    | Group(members: seq<Tree>)

  function Leaf(head: Label, r: Region): Tree { Node(head, r, [], []) }

  function Branch(head: Label, r: Region, children: seq<Tree>): Tree { Node(head, r, children, []) }

  // ---- names, literals, types -------------------------------------------------------------------

  function SimpleTree(n: SimpleName): Tree { Leaf(SimpleNameLabel(n.identifier, n.kind), n.region) }

  function SimpleTrees(ns: seq<SimpleName>): seq<Tree> {
    seq(|ns|, i requires 0 <= i < |ns| => SimpleTree(ns[i]))
  }

  function SimpleOpt(n: Option<SimpleName>): seq<Tree> { if n.Some? then [SimpleTree(n.value)] else [] }

  function NameTree(n: Name): Tree {
    match n
    case Simple(name) => SimpleTree(name)
    case Qualified(qualifier, last, r) => Branch(QualifiedNameLabel, r, [NameTree(qualifier), SimpleTree(last)])
  }

  function NameTrees(ns: seq<Name>): seq<Tree> {
    seq(|ns|, i requires 0 <= i < |ns| => NameTree(ns[i]))
  }

  function NameOpt(n: Option<Name>): seq<Tree> { if n.Some? then [NameTree(n.value)] else [] }

  function LiteralTree(l: Literal): Tree {
    match l
    case Numeric(kind, sign, digits, r) => Leaf(NumericLabel(kind, sign, digits), r)
    case OtherLiteral(a, r) => Leaf(OtherLiteralLabel(a), r)
  }

  function TypeTree(t: Type): Tree {
    match t
    case PlainType(a, r) => Leaf(PlainTypeLabel(a), r)
    case RowType(fields, r) => Branch(RowTypeLabel, r, [Group(FieldTrees(fields))])
    case UserDefinedType(name, r) => Branch(UserDefinedTypeLabel, r, [NameTree(name)])
    case CollectionType(element, r) => Branch(CollectionTypeLabel, r, [TypeTree(element)])
  }

  function FieldTrees(fs: seq<FieldDefinition>): seq<Tree> {
    seq(|fs|, i requires 0 <= i < |fs| => FieldTree(fs[i]))
  }

  function FieldTree(f: FieldDefinition): Tree {
    Group([SimpleTree(f.name), TypeTree(f.fieldType), Group(NameOpt(f.collation))])
  }

  function TypeOpt(t: Option<Type>): seq<Tree> { if t.Some? then [TypeTree(t.value)] else [] }

  // ---- scalar expressions -----------------------------------------------------------------------

  function ScalarTree(e: Scalar): Tree
    decreases e, 1
  {
    Node(ScalarHead(e), e.region, ScalarFields(e), ScalarSkipped(e))
  }

  function ScalarHead(e: Scalar): Label {
    match e
    case LiteralExpression(_, _) => LiteralExpressionLabel
    case VariableReference(_, _) => VariableLabel
    case HostParameterReference(_, _) => HostParameterLabel
    case FieldReference(_, a, _, _) => FieldReferenceLabel(a)
    case CaseExpression(_, _, _, _) => CaseLabel
    case CastExpression(a, _, _, _) => CastLabel(a)
    case UnaryExpression(op, opRegion, _, _) => UnaryLabel(op, opRegion)
    case BinaryExpression(_, a, _, _) => BinaryLabel(a)
    case ExtractExpression(a, _, _) => ExtractLabel(a)
    case TrimExpression(a, _, _, _) => TrimLabel(a)
    case ValueConstructor(a, _, _) => ValueConstructorLabel(a)
    case ScalarSubquery(a, _, _) => ScalarSubqueryLabel(a)
    case ComparisonPredicate(_, a, _, _) => ComparisonLabel(a)
    case QuantifiedComparison(_, a, _, _) => QuantifiedComparisonLabel(a)
    case BetweenPredicate(_, a, _, _, _) => BetweenLabel(a)
    case InPredicate(_, a, _, _) => InLabel(a)
    case PatternMatch(_, a, _, _, _) => PatternMatchLabel(a)
    case TablePredicate(a, _, _) => TablePredicateLabel(a)
    case FunctionInvocation(_, _, _) => FunctionLabel
    case BuiltinFunctionInvocation(f, _, _) => BuiltinFunctionLabel(f)
    case BuiltinSetFunctionInvocation(a, _, _) => BuiltinSetFunctionLabel(a)
    case NewInvocation(_, _, _) => NewLabel
    case MethodInvocation(_, a, _, _, _) => MethodLabel(a)
    case StaticMethodInvocation(_, _, _, _) => StaticMethodLabel
    case CurrentOfCursor(_, _) => CurrentOfLabel
    case PlaceholderReference(index, _) => PlaceholderLabel(index)
  }

  function ScalarFields(e: Scalar): seq<Tree>
    decreases e, 0
  {
    match e
    case LiteralExpression(value, _) => [LiteralTree(value)]
    case VariableReference(name, _) => [NameTree(name)]
    case HostParameterReference(name, _) => [SimpleTree(name)]
    case FieldReference(value, _, name, _) => [ScalarTree(value), SimpleTree(name)]
    case CaseExpression(operand, whens, default, _) =>
      [Group(ScalarOpt(operand)), Group(WhenTrees(whens)), Group(ScalarOpt(default))]
    case CastExpression(_, operand, t, _) => [ScalarTree(operand), TypeTree(t)]
    case UnaryExpression(_, _, operand, _) => [ScalarTree(operand)]
    case BinaryExpression(left, _, right, _) => [ScalarTree(left), ScalarTree(right)]
    case ExtractExpression(_, operand, _) => [ScalarTree(operand)]
    case TrimExpression(_, character, source, _) => [Group(ScalarOpt(character)), ScalarTree(source)]
    case ValueConstructor(_, elements, _) => [Group(ScalarTrees(elements))]
    case ScalarSubquery(_, query, _) => [QueryTree(query)]
    case ComparisonPredicate(left, _, right, _) => [ScalarTree(left), ScalarTree(right)]
    case QuantifiedComparison(left, _, query, _) => [ScalarTree(left), QueryTree(query)]
    case BetweenPredicate(target, _, left, right, _) => [ScalarTree(target), ScalarTree(left), ScalarTree(right)]
    case InPredicate(left, _, query, _) => [ScalarTree(left), QueryTree(query)]
    case PatternMatch(value, _, pattern, escape, _) =>
      [ScalarTree(value), ScalarTree(pattern), Group(ScalarOpt(escape))]
    case TablePredicate(_, query, _) => [QueryTree(query)]
    case FunctionInvocation(_, arguments, _) => [Group(ScalarTrees(arguments))]
    case BuiltinFunctionInvocation(_, arguments, _) => [Group(ScalarTrees(arguments))]
    case BuiltinSetFunctionInvocation(_, arguments, _) => [Group(ScalarTrees(arguments))]
    case NewInvocation(t, arguments, _) => [TypeTree(t), Group(ScalarTrees(arguments))]
    case MethodInvocation(value, _, name, arguments, _) =>
      [ScalarTree(value), SimpleTree(name), Group(ScalarTrees(arguments))]
    case StaticMethodInvocation(t, name, arguments, _) =>
      [TypeTree(t), SimpleTree(name), Group(ScalarTrees(arguments))]
    case CurrentOfCursor(name, _) => [NameTree(name)]
    case _ => []
  }

  // What the visitor does not enter.
  function ScalarSkipped(e: Scalar): seq<Tree> {
    match e
    case FunctionInvocation(name, _, _) => [NameTree(name)]
    case _ => []
  }

  function ScalarTrees(es: seq<Scalar>): seq<Tree> {
    seq(|es|, i requires 0 <= i < |es| => ScalarTree(es[i]))
  }

  function ScalarOpt(e: Option<Scalar>): seq<Tree> { if e.Some? then [ScalarTree(e.value)] else [] }

  function WhenTrees(ws: seq<WhenClause>): seq<Tree> {
    seq(|ws|, i requires 0 <= i < |ws| => WhenTree(ws[i]))
  }

  function WhenTree(w: WhenClause): Tree { Group([ScalarTree(w.condition), ScalarTree(w.result)]) }

  function SortTrees(ss: seq<SortElement>): seq<Tree> {
    seq(|ss|, i requires 0 <= i < |ss| => SortTree(ss[i]))
  }

  function SortTree(s: SortElement): Tree { Group([ScalarTree(s.key), Group(NameOpt(s.collation))]) }

  // ---- queries and tables -----------------------------------------------------------------------

  function QueryTree(q: Query): Tree {
    match q
    case SelectQuery(elements, from, where, groupBy, having, orderBy, limit, r) =>
      Branch(SelectQueryLabel, r,
             [Group(SelectTrees(elements)), Group(TableTrees(from)), Group(ScalarOpt(where)),
              Group(GroupByOpt(groupBy)), Group(ScalarOpt(having)), Group(SortTrees(orderBy)), Group(ScalarOpt(limit))])
    case QueryTableReference(name, r) => Branch(QueryTableLabel, r, [NameTree(name)])
    case TableValueConstructor(rows, r) => Branch(TableValueLabel, r, [Group(ScalarTrees(rows))])
    case BinaryQuery(left, a, corresponding, right, r) =>
      Branch(BinaryQueryLabel(a), r, [QueryTree(left), Group(CorrespondingOpt(corresponding)), QueryTree(right)])
    case WithQuery(clauses, body, r) => Branch(WithQueryLabel, r, [Group(WithTrees(clauses)), QueryTree(body)])
  }

  function QueryOpt(q: Option<Query>): seq<Tree> { if q.Some? then [QueryTree(q.value)] else [] }

  function CorrespondingOpt(ns: Option<seq<SimpleName>>): seq<Tree> {
    if ns.Some? then [Group(SimpleTrees(ns.value))] else []
  }

  function SelectTrees(es: seq<SelectElement>): seq<Tree> {
    seq(|es|, i requires 0 <= i < |es| => SelectTree(es[i]))
  }

  function SelectTree(e: SelectElement): Tree {
    match e
    case SelectColumn(value, name, r) => Branch(SelectColumnLabel, r, [ScalarTree(value), Group(SimpleOpt(name))])
    case SelectAsterisk(qualifier, r) => Branch(SelectAsteriskLabel, r, [Group(ScalarOpt(qualifier))])
  }

  function GroupByOpt(c: Option<GroupByClause>): seq<Tree> { if c.Some? then [GroupByTree(c.value)] else [] }

  function GroupByTree(c: GroupByClause): Tree { Group(GroupingTrees(c.elements)) }

  function GroupingTrees(es: seq<GroupingElement>): seq<Tree> {
    seq(|es|, i requires 0 <= i < |es| => GroupingTree(es[i]))
  }

  function GroupingTree(e: GroupingElement): Tree {
    Branch(GroupingColumnLabel, e.region, [ScalarTree(e.column), Group(NameOpt(e.collation))])
  }

  function WithTrees(es: seq<WithElement>): seq<Tree> {
    seq(|es|, i requires 0 <= i < |es| => WithTree(es[i]))
  }

  function WithTree(e: WithElement): Tree {
    Group([SimpleTree(e.name), Group(SimpleTrees(e.columnNames)), QueryTree(e.expression)])
  }

  function CorrelationTree(c: Correlation): Tree { Group([SimpleTree(c.name), Group(SimpleTrees(c.columnNames))]) }

  function CorrelationOpt(c: Option<Correlation>): seq<Tree> { if c.Some? then [CorrelationTree(c.value)] else [] }

  function TableTree(t: Table): Tree {
    match t
    case TableReference(name, aliased, r) =>
      Branch(TableReferenceLabel, r, [NameTree(name), Group(CorrelationOpt(aliased))])
    case Unnest(scalar, correlation, r) => Branch(UnnestLabel, r, [ScalarTree(scalar), CorrelationTree(correlation)])
    case Join(left, a, right, specification, r) =>
      Branch(JoinLabel(a), r, [TableTree(left), TableTree(right), Group(JoinOpt(specification))])
    case TableSubquery(query, correlation, r) =>
      Branch(TableSubqueryLabel, r, [QueryTree(query), CorrelationTree(correlation)])
    case Apply(operand, name, arguments, correlation, r) =>
      Node(ApplyLabel, r, [NameTree(name), Group(ScalarTrees(arguments)), CorrelationTree(correlation)],
           [TableTree(operand)])
  }

  function TableTrees(ts: seq<Table>): seq<Tree> {
    seq(|ts|, i requires 0 <= i < |ts| => TableTree(ts[i]))
  }

  function JoinOpt(j: Option<JoinSpecification>): seq<Tree> { if j.Some? then [JoinTree(j.value)] else [] }

  function JoinTree(j: JoinSpecification): Tree {
    match j
    case JoinCondition(expression, r) => Branch(JoinConditionLabel, r, [ScalarTree(expression)])
    case JoinColumns(columns, r) => Branch(JoinColumnsLabel, r, [Group(SimpleTrees(columns))])
  }

  // ---- statements -------------------------------------------------------------------------------

  function ParameterTrees(ps: seq<StorageParameter>): seq<Tree> {
    seq(|ps|, i requires 0 <= i < |ps| => ParameterTree(ps[i]))
  }

  function ParameterTree(p: StorageParameter): Tree { Group([NameTree(p.name), Group(ScalarOpt(p.value))]) }

  function ConstraintTree(c: Constraint): Tree {
    match c
    case SimpleConstraint(a, r) => Leaf(SimpleConstraintLabel(a), r)
    case ExpressionConstraint(a, expression, r) => Branch(ExpressionConstraintLabel(a), r, [ScalarTree(expression)])
    case KeyConstraint(a, keys, values, parameters, r) =>
      Branch(KeyConstraintLabel(a), r,
             [Group(SortTrees(keys)), Group(ScalarTrees(values)), Group(ParameterTrees(parameters))])
    case ReferentialConstraint(columns, target, targetColumns, r) =>
      Branch(ReferentialConstraintLabel, r,
             [Group(SimpleTrees(columns)), NameTree(target), Group(SimpleTrees(targetColumns))])
    case IdentityConstraint(initial, increment, min, max, r) =>
      Branch(IdentityConstraintLabel, r,
             [Group(ScalarOpt(initial)), Group(ScalarOpt(increment)), Group(ScalarOpt(min)), Group(ScalarOpt(max))])
  }

  function ColumnConstraintTrees(cs: seq<ColumnConstraint>): seq<Tree> {
    seq(|cs|, i requires 0 <= i < |cs| => ColumnConstraintTree(cs[i]))
  }

  function ColumnConstraintTree(c: ColumnConstraint): Tree { Group([Group(NameOpt(c.name)), ConstraintTree(c.body)]) }

  function ElementTrees(es: seq<TableElement>): seq<Tree> {
    seq(|es|, i requires 0 <= i < |es| => ElementTree(es[i]))
  }

  function ElementTree(e: TableElement): Tree {
    match e
    case ColumnDefinition(name, t, constraints, r) =>
      Branch(ColumnDefinitionLabel, r, [SimpleTree(name), TypeTree(t), Group(ColumnConstraintTrees(constraints))])
    case TableConstraint(name, body, r) => Branch(TableConstraintLabel, r, [Group(NameOpt(name)), ConstraintTree(body)])
  }

  function ActionTree(a: AlterAction): Tree {
    match a
    case RenameTable(replacement, r) => Branch(RenameTableLabel, r, [SimpleTree(replacement)])
    case RenameColumn(column, replacement, r) =>
      Branch(RenameColumnLabel, r, [SimpleTree(column), SimpleTree(replacement)])
    case RenameIndex(replacement, r) => Branch(RenameIndexLabel, r, [SimpleTree(replacement)])
  }

  function TargetTrees(ts: seq<TargetElement>): seq<Tree> {
    seq(|ts|, i requires 0 <= i < |ts| => TargetTree(ts[i]))
  }

  function TargetTree(t: TargetElement): Tree { Group([NameTree(t.target), Group(SimpleOpt(t.indicator))]) }

  function SetTrees(es: seq<SetElement>): seq<Tree> {
    seq(|es|, i requires 0 <= i < |es| => SetTree(es[i]))
  }

  function SetTree(e: SetElement): Tree { Group([NameTree(e.target), ScalarTree(e.value)]) }

  function UserTrees(us: seq<Option<SimpleName>>): seq<Tree> {
    seq(|us|, i requires 0 <= i < |us| => Group(SimpleOpt(us[i])))
  }

  function StatementTree(s: Statement): Tree
    decreases s, 1
  {
    Node(StatementHead(s), s.region, StatementFields(s), StatementSkipped(s))
  }

  function StatementHead(s: Statement): Label {
    match s
    case EmptyStatement(_) => EmptyLabel
    case SelectStatement(_, _, _) => SelectLabel
    case InsertStatement(_, _, _, _) => InsertLabel
    case UpdateStatement(_, _, _, _, _) => UpdateLabel
    case DeleteStatement(_, _, _, _) => DeleteLabel
    case TableDefinition(_, _, _, _) => TableDefinitionLabel
    case IndexDefinition(_, _, _, _, _, _, _) => IndexDefinitionLabel
    case ViewDefinition(_, _, _, _, _) => ViewDefinitionLabel
    case SequenceDefinition(_, _, _, _, _, _, _, _) => SequenceDefinitionLabel
    case SchemaDefinition(_, _, _, _) => SchemaDefinitionLabel
    case AlterTable(_, _, _) => AlterTableLabel
    case AlterIndex(_, _, _) => AlterIndexLabel
    case DropStatement(a, _, _) => DropLabel(a)
    case TruncateTable(_, _) => TruncateLabel
    case PrivilegeStatement(a, _, _, _) => PrivilegeLabel(a)
  }

  function StatementFields(s: Statement): seq<Tree>
    decreases s, 0
  {
    match s
    case SelectStatement(query, targets, _) => [QueryTree(query), Group(TargetTrees(targets))]
    case InsertStatement(table, columns, source, _) =>
      [NameTree(table), Group(SimpleTrees(columns)), Group(QueryOpt(source))]
    case UpdateStatement(table, _, assignments, where, _) =>
      [NameTree(table), Group(SetTrees(assignments)), Group(ScalarOpt(where))]
    case DeleteStatement(table, _, where, _) => [NameTree(table), Group(ScalarOpt(where))]
    case TableDefinition(name, elements, parameters, _) =>
      [NameTree(name), Group(ElementTrees(elements)), Group(ParameterTrees(parameters))]
    case IndexDefinition(name, table, keys, values, filter, parameters, _) =>
      [Group(NameOpt(name)), NameTree(table), Group(SortTrees(keys)), Group(ScalarTrees(values)),
       Group(ScalarOpt(filter)), Group(ParameterTrees(parameters))]
    case ViewDefinition(name, columns, definition, parameters, _) =>
      [NameTree(name), Group(SimpleTrees(columns)), QueryTree(definition), Group(ParameterTrees(parameters))]
    case SequenceDefinition(name, t, initial, increment, min, max, owner, _) =>
      [NameTree(name), Group(TypeOpt(t)), Group(ScalarOpt(initial)), Group(ScalarOpt(increment)),
       Group(ScalarOpt(min)), Group(ScalarOpt(max)), Group(NameOpt(owner))]
    case SchemaDefinition(name, user, statements, _) =>
      [Group(NameOpt(name)), Group(SimpleOpt(user)), Group(StatementTrees(statements))]
    case AlterTable(name, action, _) => [NameTree(name), ActionTree(action)]
    case AlterIndex(name, action, _) => [NameTree(name), ActionTree(action)]
    case DropStatement(_, name, _) => [NameTree(name)]
    case TruncateTable(name, _) => [NameTree(name)]
    case PrivilegeStatement(_, objects, users, _) => [Group(NameTrees(objects)), Group(UserTrees(users))]
    case _ => []
  }

  // What the visitor does not enter.
  function StatementSkipped(s: Statement): seq<Tree> {
    match s
    case UpdateStatement(_, alias, _, _, _) => SimpleOpt(alias)
    case DeleteStatement(_, alias, _, _) => SimpleOpt(alias)
    case _ => []
  }

  function StatementTrees(ss: seq<Statement>): seq<Tree> {
    seq(|ss|, i requires 0 <= i < |ss| => StatementTree(ss[i]))
  }

  // ---- the plain measures of a tree -------------------------------------------------------------

  function Taller(a: nat, b: nat): nat { if a < b then b else a }

  // How many nodes the walk visits.
  function Nodes(t: Tree): nat {
    match t
    case Node(_, _, children, _) => 1 + NodesOf(children)
    case Group(members) => NodesOf(members)
  }

  function NodesOf(ts: seq<Tree>): nat { if ts == [] then 0 else Nodes(ts[0]) + NodesOf(ts[1..]) }

  // How deep it goes.
  function Height(t: Tree): nat {
    match t
    case Node(_, _, children, _) => 1 + HeightOf(children)
    case Group(members) => HeightOf(members)
  }

  function HeightOf(ts: seq<Tree>): nat { if ts == [] then 0 else Taller(Height(ts[0]), HeightOf(ts[1..])) }

  // How many nodes there are with the skipped fields counted too.
  function AllNodes(t: Tree): nat {
    match t
    case Node(_, _, children, skipped) => 1 + AllNodesOf(children) + AllNodesOf(skipped)
    case Group(members) => AllNodesOf(members)
  }

  function AllNodesOf(ts: seq<Tree>): nat { if ts == [] then 0 else AllNodes(ts[0]) + AllNodesOf(ts[1..]) }

  lemma {:induction false} OneTree(t: Tree)
    ensures NodesOf([t]) == Nodes(t) && HeightOf([t]) == Height(t)
  {
    assert [t][1..] == [];
  }

  // No visited node has a field that the walk skips.
  predicate NothingSkipped(t: Tree) {
    match t
    case Node(_, _, children, skipped) => AllNodesOf(skipped) == 0 && NothingSkippedIn(children)
    case Group(members) => NothingSkippedIn(members)
  }

  predicate NothingSkippedIn(ts: seq<Tree>) { ts == [] || (NothingSkipped(ts[0]) && NothingSkippedIn(ts[1..])) }

  // The walk sees at most the whole tree, and all of it exactly when it meets no skipped field.
  lemma {:induction false} VisitsAtMostAllNodes(t: Tree)
    ensures Nodes(t) <= AllNodes(t)
    ensures Nodes(t) == AllNodes(t) <==> NothingSkipped(t)
  {
    match t
    case Node(_, _, children, _) => VisitsAtMostAllNodesOf(children);
    case Group(members) => VisitsAtMostAllNodesOf(members);
  }

  lemma {:induction false} VisitsAtMostAllNodesOf(ts: seq<Tree>)
    ensures NodesOf(ts) <= AllNodesOf(ts)
    ensures NodesOf(ts) == AllNodesOf(ts) <==> NothingSkippedIn(ts)
  {
    if ts != [] {
      VisitsAtMostAllNodes(ts[0]);
      VisitsAtMostAllNodesOf(ts[1..]);
    }
  }

  // The fields that the walk skips, for every sort of node.
  lemma {:induction false} SkippedFields(e: Scalar, t: Table, s: Statement)
    ensures ScalarTree(e).skipped == if e.FunctionInvocation? then [NameTree(e.functionName)] else []
    ensures TableTree(t).skipped == if t.Apply? then [TableTree(t.operand)] else []
    ensures StatementTree(s).skipped == if s.UpdateStatement? || s.DeleteStatement? then SimpleOpt(s.alias) else []
  {
  }

  lemma {:induction false} NothingElseSkipped(n: Name, l: Literal, y: Type, q: Query, j: JoinSpecification)
    ensures NameTree(n).skipped == LiteralTree(l).skipped == TypeTree(y).skipped == QueryTree(q).skipped == []
    ensures JoinTree(j).skipped == []
  {
  }

  lemma {:induction false} NothingSkippedInParts(e: SelectElement, g: GroupingElement, c: Constraint, d: TableElement,
                                                 a: AlterAction)
    ensures SelectTree(e).skipped == GroupingTree(g).skipped == ActionTree(a).skipped == []
    ensures ConstraintTree(c).skipped == ElementTree(d).skipped == []
  {
  }
}
