# Verification model of the SQL parser's support layer

This project models the hand-written code between the generated lexer and parser and the finished
syntax tree of mizugaki: the comment and placeholder index, the scanner's cursor that feeds it, the
rewrites of literals and identifier chains, and the validator that limits the size of the tree.
`dafny verify dfyconfig.toml` checks it.

| file | models |
|---|---|
| `Regions.dfy` | `ast::node_region`: validity, union, sub-regions, with 64-bit positions that wrap |
| `CommentLog.dfy` | the full log of comment and token events, and lookups answered by scanning it |
| `SqlDriver.dfy` | the fields of `sql_driver` and the methods that update and search them |
| `SqlScanner.dfy` | the cursor of `sql_scanner`, the lexer's comment states, and the scanner feeding the driver |
| `PlaceholderNumbers.dfy` | the ordinals of placeholders in terms of the matches of the lexer |
| `OpenedComments.dfy` | which comments a run opens, and which of them reach the driver |
| `CommentTexts.dfy` | the lexer's comment rules against the text of the document |
| `Ast.dfy` | the syntax tree, one datatype per sort of node |
| `VisitedTree.dfy` | for every kind of node, the fields the validator's visitor accepts, in order, and those it skips |
| `TreeEncoding.dfy` | that those fields are all there are: the tree determines the syntax |
| `TreeValidator.dfy` | the validator's engine and its judgement |
| `SyntaxWalk.dfy` | the walk and the node count of every kind of node, said of the syntax |
| `Results.dfy`, `SqlParser.dfy` | the parser's result and the glue that lays the validator's result over it |
| `LiteralFolding.dfy` | folding a sign into a numeric literal, at any positions of any tree |
| `StatementFolding.dfy` | folding as the grammar does it, throughout a statement and its nested queries |
| `FoldedSyntax.dfy` | that no sign over an unsigned number is left in what the parser hands out |
| `IdentifierChains.dfy` | merging `a . b` into one qualified name |
| `DelimitedIdentifiers.dfy` | decoding delimited identifiers |
| `ExpectedTokens.dfy` | collapsing identifier-like tokens in syntax errors |

How the parts are tied together:

* `SqlDriver` keeps a ghost log of everything reported to it. Its invariant says that the compressed
  separator list is the list of *edges* of the log: separators with a comment right before or after
  them. Every lookup is specified by a scan of the log, for every region a caller may ask about.
* `SqlScanner` describes each lexer match by the text it consumes alone. The class computes the same
  regions with the source's `cursor_`, `yyleng` and `comment_begin_` arithmetic, and every step of
  every run meets the ordering precondition of the driver.
* The overloads of `accept` in the validator differ only in the static type of the node. The engine is
  one method over the tree of visited nodes; which fields become children, and in which order, is
  written out kind by kind in `VisitedTree`, next to the fields the visitor never enters
  (the operand of `apply`, function names, and the aliases of update and delete statements). Lists,
  optional fields and objects that are not nodes (clauses, sort elements, parameters) are groups,
  through which the walk goes without counting them, as in the visitor. `SyntaxWalk` derives from this,
  kind by kind, which visits the walk of a node consists of, and `TreeEncoding` proves that visited
  and skipped fields together are the whole syntax.
* `StatementFolding` folds while the syntax tree is built, as the grammar actions do, and
  `StatementFolding.StatementFolds` shows that this is folding everywhere in the tree. What folding
  preserves is proved once, for every tree and every choice of positions, in `LiteralFolding`.
  `LiteralFolding.FoldWritesTheSign` and `FoldChangesNothingElse` say what one fold does, and
  `FoldedSyntax` says on the syntax alone what folding achieves.
* The meaning of a tree is any compositional semantics: `LiteralFolding.Semantics` fixes only that
  numeric literals and signs are arithmetic, and leaves reading digits, all other nodes, and the
  contexts (such as rows) under which meanings are taken arbitrary.
* Positions count bytes. A document is a sequence of characters each of which stands for one byte.

Where code and expectation differ, the model follows the code:

* Union does not commute when two different invalid regions meet: the right one wins
  (`Regions.UnionCommutes` gives the exact condition).
* Without a document, `following_comments` does not find comments that no later token has closed yet
  (`SqlDriver.FollowingMeetsLeading`). The start of the document counts as a token in that lookup when
  the document opens with a comment.
* A bracketed comment cut off by the end of file is never reported as a comment, and the token returned
  there cannot be looked up. `OpenedComments.CompleteRunReportsItsComments` and
  `SqlScanner.EndOfFileIsFound` give the exact conditions, `OpenedComments.UnclosedCommentIsLost` a
  document on which both fail.
* The closing assertion of the delimited-identifier decoder also holds for some bodies that the lexer
  rejects (`DelimitedIdentifiers.ClosingAssertion`, `DelimitedIdentifiers.ClosingAssertionIsWeaker`).
* With both limits disabled the validator reports zero nodes and zero depth, so two accepting runs
  report the same measures exactly when both measure, or neither does, or there are no statements
  (`TreeValidator.AcceptingRunsAgree`, `SqlParser.AcceptedResultsAgree`).

## Model

| member | source | states |
|---|---|---|
| Regions.UnionAssociates | src/mizugaki/ast/node_region.cpp:9-19 | union is associative on all regions, invalid ones included |
| Regions.UnionCommutes | src/mizugaki/ast/node_region.cpp:9-19 | union commutes if and only if one operand is valid or both are equal |
| Regions.UnionDoesNotCommuteOnInvalidRegions | src/mizugaki/ast/node_region.cpp:9-19 | two invalid regions whose union depends on their order |
| Regions.UnionAllIsHull | src/mizugaki/ast/node_region.cpp:9-19 | folding union over any list gives the least region enclosing its valid members, and only that; it is invalid exactly when none is valid |
| Regions.SubCutsOutTheRange | include/mizugaki/ast/node_region.h:54-61 | a sub-range inside a region is cut out exactly |
| CommentLog.EdgeList | src/mizugaki/parser/sql_driver.cpp:82-103 | the recorded separators are strictly increasing and are exactly the edges of the log |
| CommentLog.InRangeIsExact | src/mizugaki/parser/sql_driver.cpp:228-256 | the comments beginning in a closed range, all of them, no others, in order |
| CommentLog.IndexSizeBound | src/mizugaki/parser/sql_driver.cpp:82-103 | the exact number of recorded separators, at most two per run of comments, however many tokens were seen |
| CommentLog.LastEdgeWhilePending | src/mizugaki/parser/sql_driver.cpp:93-101 | while comments are pending the separator list is nonempty and its last entry opens their run and precedes them all |
| CommentLog.BeforeEdge | src/mizugaki/parser/sql_driver.cpp:148-160 | the comments between a recorded separator and the entry before it are those between the token and the previous token |
| CommentLog.BeforeNonEdge | src/mizugaki/parser/sql_driver.cpp:153-155 | a token that is not recorded has no comments on either side |
| CommentLog.FromEdge | src/mizugaki/parser/sql_driver.cpp:167-182 | the comments between a recorded separator and the entry after it, or the end, are those up to the next token |
| CommentLog.BeforeIsStable | src/mizugaki/parser/sql_driver.cpp:82-161 | nothing reported later changes the leading comments of a token already reported |
| CommentLog.FollowingIsLeadingOfNext | src/mizugaki/parser/sql_driver.cpp:144-183 | what follows one token is what leads the next |
| CommentLog.CommentsConserved | src/mizugaki/parser/sql_driver.cpp:144-183 | the leading comments of all tokens put end to end are all the comments, if and only if none is pending |
| SqlDriver.LowerBound | src/mizugaki/parser/sql_driver.cpp:149-152 | binary search finds the first entry that is not below the key |
| SqlDriver.LowerBoundByBegin | src/mizugaki/parser/sql_driver.cpp:234-240 | the same over comments compared by their beginning |
| SqlDriver.UpperBoundByBegin | src/mizugaki/parser/sql_driver.cpp:244-250 | binary search finds the first comment beginning beyond the key |
| SqlDriver.CommentEntry | src/mizugaki/parser/sql_driver.cpp:82-91 | the driver's decision from its last entry keeps the list equal to the edges of the longer log |
| SqlDriver.SeparatorEntry | src/mizugaki/parser/sql_driver.cpp:93-103 | likewise for a separator; the last entry is always below it |
| SqlDriver.FollowingMeetsLeading | src/mizugaki/parser/sql_driver.cpp:163-183 | the following lookup equals the next token's leading one; pending comments are found exactly when there is a document |
| SqlDriver.LastDescriptionIsNearest | src/mizugaki/parser/sql_driver.cpp:189-226 | the chosen comment is a description and none after it is; the invalid region means there is none |
| SqlDriver.FindDescription | src/mizugaki/parser/sql_driver.cpp:201-225 | the reverse search finds the last comment of five or more bytes between `/**` and `*/` |
| SqlDriver.OrdinalsNumberTheMarks | src/mizugaki/parser/sql_driver.cpp:105-126 | ordinals number the marks 1..n in order, are 0 exactly elsewhere, and never change when later marks arrive |
| SqlDriver.SqlDriver.AddComment | src/mizugaki/parser/sql_driver.cpp:82-91 | appends the comment to the log and keeps the index in agreement with it |
| SqlDriver.SqlDriver.AddCommentSeparator | src/mizugaki/parser/sql_driver.cpp:93-103 | appends the separator to the log and keeps the index in agreement with it |
| SqlDriver.SqlDriver.AddPlaceholderMark | src/mizugaki/parser/sql_driver.cpp:105-110 | appends a valid token's position, ignores an invalid one |
| SqlDriver.SqlDriver.FindPlaceholderMark | src/mizugaki/parser/sql_driver.cpp:112-126 | the number of marks up to a marked token, 0 for every other region |
| SqlDriver.SqlDriver.CommentsInRange | src/mizugaki/parser/sql_driver.cpp:228-256 | exactly the recorded comments that begin in the closed range, in order |
| SqlDriver.SqlDriver.LeadingComments | src/mizugaki/parser/sql_driver.cpp:144-161 | a reported token gets exactly the comments since the previous token, every other region gets none |
| SqlDriver.SqlDriver.FollowingComments | src/mizugaki/parser/sql_driver.cpp:163-183 | a reported token gets exactly the comments up to the next token, but none that no later token has closed if there is no document; position 0 gets the comments the document opens with, even where no token was reported; every other region gets none |
| SqlDriver.SqlDriver.LeadingDescriptionComment | src/mizugaki/parser/sql_driver.cpp:189-226 | valid if and only if some comment since the previous token is a description, and then the last such; invalid if switched off, without a document, or for an unknown token |
| SqlDriver.SqlDriver.Success | src/mizugaki/parser/sql_driver.cpp:56-68 | publishes all statements but a blank one at the very end, in order, and moves the comments into the unit |
| SqlScanner.SqlScanner.Match | src/mizugaki/parser/sql_scanner.ll:84-119 | the cursor arithmetic of every rule yields the region of the text it matched, of the comment it closes, and of the token returned |
| SqlScanner.Step | src/mizugaki/parser/sql_scanner.cpp:20-49 | one match and its reports: the driver's preconditions hold and both stay in step |
| SqlScanner.Run | src/mizugaki/parser/sql_scanner.ll:80-119 | the same for every run of matches |
| SqlScanner.MatchKeepsSound | src/mizugaki/parser/sql_scanner.cpp:20-49 | one match keeps reported regions nonempty, disjoint, ordered and behind the cursor |
| SqlScanner.EveryRunIsSound | src/mizugaki/parser/sql_scanner.cpp:20-49 | that invariant holds in every reachable state |
| SqlScanner.SoundIsInOrder | src/mizugaki/parser/sql_scanner.cpp:20-49 | it gives the driver's ordering, disjointness and bounds |
| SqlScanner.EveryRunConservesComments | src/mizugaki/parser/sql_scanner.ll:84-119 | in every complete run the comments are exactly the tokens' leading comments put end to end |
| SqlScanner.TokenKeepsItsComments | src/mizugaki/parser/sql_scanner.cpp:20-22 | a token just returned, the end of file included unless it cuts off a bracketed comment, can be looked up, and its answer stays the same however the run goes on |
| SqlScanner.EndOfFileIsFound | src/mizugaki/parser/sql_scanner.ll:96-100 | the token returned at the end of file can be looked up if and only if no bracketed comment is open there |
| SqlScanner.TokenIsItsText | src/mizugaki/parser/sql_scanner.cpp:20-30 | after any run the next token is the text just behind everything matched, and is reported with that very region; a bracketed comment cut off by the end of file yields its opening mark instead |
| SqlScanner.EveryPlaceholderIsNumbered | src/mizugaki/parser/sql_scanner.ll:153-156 | in every run the i-th mark is a reported token and is found with number i |
| PlaceholderNumbers.MarksCountPlaceholders | src/mizugaki/parser/sql_scanner.ll:153-156 | every run makes one mark per placeholder matched |
| PlaceholderNumbers.TokensAreNumbered | src/mizugaki/parser/sql_scanner.ll:153-156 | in every run, however it goes on, a placeholder has the number one more than the placeholders matched before it, and every other token has none |
| PlaceholderNumbers.FindAfterRun | src/mizugaki/parser/sql_parser.yy:4862-4874 | that is what the driver answers for the token once the scanner has run |
| OpenedComments.OpenedCommentsAreReported | src/mizugaki/parser/sql_scanner.ll:86-121 | every run reports the comments it opens, one by one and in order, except the one it leaves open |
| OpenedComments.CompleteRunReportsItsComments | src/mizugaki/parser/sql_scanner.ll:96-100 | a complete run reports all comments it opens if and only if it does not end inside a bracketed one, and otherwise all but that one |
| OpenedComments.UnclosedCommentIsLost | src/mizugaki/parser/sql_scanner.ll:96-100 | a run in which an opened comment is lost and the token at the end of file has no leading comments although there is one |
| CommentTexts.MatchKeepsOpen | src/mizugaki/parser/sql_scanner.ll:91-121 | a comment being scanned starts with its opening mark and has met no closing mark or line break; whatever is reported is a comment of the text |
| CommentTexts.ReportedCommentsAreComments | src/mizugaki/parser/sql_scanner.ll:86-121 | in every run over a document each reported comment reaches from its opening mark to its first closing mark, or to the end of its line or of the document |
| CommentTexts.CommentsAreUnique | src/mizugaki/parser/sql_scanner.ll:86-121 | where a comment begins determines, with the text, where it ends, for bracketed and simple comments alike |
| CommentTexts.DescriptionsAreBracketed | src/mizugaki/parser/sql_driver.cpp:204-221 | a description comment is always a bracketed comment, never a simple one |
| CommentTexts.DescribingComments | src/mizugaki/parser/sql_driver.cpp:204-221 | a bracketed comment is a description if and only if it has at least five bytes and a second asterisk after its opening mark |
| TreeEncoding.StatementIsDetermined | src/mizugaki/parser/sql_tree_validator.cpp:252-850 | no field is forgotten: what is visited and what is skipped determine the statement, with everything below it |
| VisitedTree.SkippedFields | src/mizugaki/parser/sql_tree_validator.cpp:274-677 | what is skipped is exactly the function name of an invocation, the operand of an apply, and the alias of an update or delete statement |
| VisitedTree.VisitsAtMostAllNodes | src/mizugaki/parser/sql_tree_validator.cpp:550-556 | the walk counts at most all nodes, and all of them exactly when no visited node has a skipped field |
| TreeValidator.Engine.Check | src/mizugaki/parser/sql_tree_validator.cpp:59-92 | counts the node, tracks the depth, and records the diagnostic of the first node beyond a limit |
| TreeValidator.Engine.Accept | src/mizugaki/parser/sql_tree_validator.cpp:94-242 | walks the preorder of the subtree, or a prefix of it that ends at the offending node |
| TreeValidator.Engine.AcceptAll | src/mizugaki/parser/sql_tree_validator.cpp:244-250 | the same for a list of children |
| TreeValidator.Engine.Process | src/mizugaki/parser/sql_tree_validator.cpp:39-49 | diagnostic, count and depth are the judgement of the whole preorder, although the walk stops early |
| TreeValidator.SqlTreeValidator.Validate | src/mizugaki/parser/sql_tree_validator.cpp:868-879 | the judgement of the unit's statements, or nothing and zeros when both limits are disabled |
| TreeValidator.PreorderMeasures | src/mizugaki/parser/sql_tree_validator.cpp:59-62 | a walk is as long as the node count of its tree and as deep as its height |
| SyntaxWalk.NameWalk | src/mizugaki/parser/sql_tree_validator.cpp:835-845 | the walk and the node count of simple and qualified names |
| SyntaxWalk.TypeWalk | src/mizugaki/parser/sql_tree_validator.cpp:768-833 | the same for types |
| SyntaxWalk.ReferenceWalk | src/mizugaki/parser/sql_tree_validator.cpp:568-718 | for literals, references, cursors and placeholders |
| SyntaxWalk.OperatorWalk | src/mizugaki/parser/sql_tree_validator.cpp:599-641 | for casts, operators, trims and comparisons: each operand once, in order |
| SyntaxWalk.PredicateWalk | src/mizugaki/parser/sql_tree_validator.cpp:589-672 | for case expressions, predicates and subqueries |
| SyntaxWalk.InvocationWalk | src/mizugaki/parser/sql_tree_validator.cpp:627-707 | for constructors and invocations; the name of a function is not visited |
| SyntaxWalk.QueryWalk | src/mizugaki/parser/sql_tree_validator.cpp:458-501 | for queries, clause by clause |
| SyntaxWalk.SelectWalk | src/mizugaki/parser/sql_tree_validator.cpp:503-512 | for select elements |
| SyntaxWalk.GroupingWalk | src/mizugaki/parser/sql_tree_validator.cpp:514-518 | for grouping columns |
| SyntaxWalk.TableWalk | src/mizugaki/parser/sql_tree_validator.cpp:520-556 | for tables; the operand of apply is not visited |
| SyntaxWalk.JoinWalk | src/mizugaki/parser/sql_tree_validator.cpp:558-566 | for join specifications |
| SyntaxWalk.ConstraintWalk | src/mizugaki/parser/sql_tree_validator.cpp:403-440 | for constraints |
| SyntaxWalk.ElementWalk | src/mizugaki/parser/sql_tree_validator.cpp:387-401 | for table elements |
| SyntaxWalk.ActionWalk | src/mizugaki/parser/sql_tree_validator.cpp:442-456 | for alter actions |
| SyntaxWalk.ManipulationWalk | src/mizugaki/parser/sql_tree_validator.cpp:252-288 | for select, insert, update, delete and empty statements; aliases are not visited |
| SyntaxWalk.DefinitionWalk | src/mizugaki/parser/sql_tree_validator.cpp:290-325 | for table, index and view definitions |
| SyntaxWalk.CreationWalk | src/mizugaki/parser/sql_tree_validator.cpp:327-343 | for sequence and schema definitions |
| SyntaxWalk.AlterationWalk | src/mizugaki/parser/sql_tree_validator.cpp:345-385 | for the remaining statements |
| SyntaxWalk.StatementsWalk | src/mizugaki/parser/sql_tree_validator.cpp:244-250 | a list adds the walks of its members, in order, on the same level |
| SyntaxWalk.ScalarOptWalk | src/mizugaki/parser/sql_tree_validator.cpp:194-202 | an absent field adds nothing |
| SyntaxWalk.WhenWalk | src/mizugaki/parser/sql_tree_validator.cpp:589-597 | a clause adds its fields without a visit of its own |
| TreeValidator.PreorderDescendsGently | src/mizugaki/parser/sql_tree_validator.cpp:94-102 | consecutive visits go at most one level deeper |
| TreeValidator.RejectsExactlyBeyondLimits | src/mizugaki/parser/sql_tree_validator.cpp:39-92 | a diagnostic if and only if a nonzero limit is exceeded; otherwise exact count and height |
| TreeValidator.RejectionIsPrompt | src/mizugaki/parser/sql_tree_validator.cpp:59-92 | the diagnostic names the first offending node in preorder, count before depth, at most one node or level beyond the limit |
| TreeValidator.AcceptanceIsMonotone | src/mizugaki/parser/sql_tree_validator.cpp:864-879 | weaker limits accept whatever stricter ones do |
| TreeValidator.AcceptingRunsAgree | src/mizugaki/parser/sql_tree_validator.cpp:864-879 | any two accepting runs report the same measures if and only if both measure, or neither does, or there are no statements |
| SqlParser.Conclude | src/mizugaki/parser/sql_parser.cpp:54-67 | within the limits the result keeps its unit and publishes the node count and the height of its statements, or zeros if both limits are off; beyond them it holds only the diagnostic of the first offending visit |
| SqlParser.Parse | src/mizugaki/parser/sql_parser.cpp:34-67 | a whole parse yields the parser's diagnostic, or the reported statements but for one trailing blank, with their node count and height, or the diagnostic of the first offending visit; after a complete run the comments are the tokens' leading comments end to end, and comments of the text |
| SqlParser.WeakerLimitsAcceptMore | src/mizugaki/parser/sql_parser.cpp:54-67 | acceptance end to end is monotone in the limits and leaves the unit alone |
| SqlParser.AcceptedResultsAgree | src/mizugaki/parser/sql_parser.cpp:54-67 | any two accepted results are equal if and only if both measure, or neither does, or the unit is empty |
| LiteralFolding.FoldingKeepsTheMeaning | src/mizugaki/parser/sql_driver.cpp:373-408 | folding at any positions of any tree, nested queries included, preserves its meaning in every context of every compositional semantics |
| LiteralFolding.FoldingEverywhereNormalizes | src/mizugaki/parser/sql_driver.cpp:373-408 | folding everywhere leaves no sign directly over an unsigned number, at any depth |
| LiteralFolding.FoldAllIsIdempotent | src/mizugaki/parser/sql_driver.cpp:373-408 | folding everywhere is idempotent and fixes exactly the trees in normal form |
| LiteralFolding.FoldingKeepsSigns | src/mizugaki/parser/sql_driver.cpp:394-404 | the number of plus and of minus signs never changes, so a double negation survives |
| LiteralFolding.FoldRemovesOneNode | src/mizugaki/parser/sql_driver.cpp:400-407 | a fold that fires removes one node and one level at its place, any other leaves the expression alone |
| LiteralFolding.FoldingRemovesNodes | src/mizugaki/parser/sql_driver.cpp:373-408 | over a whole tree the node count drops by the number of folds that fire, and the height never grows |
| StatementFolding.StatementFolds | src/mizugaki/parser/sql_parser.yy:3420-3486 | folding each sign as its node is built, in any statement and its nested queries, is folding everywhere in its tree |
| FoldedSyntax.ParsedStatementsAreFolded | src/mizugaki/parser/sql_parser.yy:3420-3486 | the statement the parser hands out has no plus or minus over an unsigned number in any expression, nested queries included; folding changes exactly the statements that have one; these are the statements whose trees are in normal form |
| FoldedSyntax.FoldsScalar | src/mizugaki/parser/sql_driver.cpp:373-408 | the same for every scalar expression |
| LiteralFolding.NodesStayInPlace | src/mizugaki/parser/sql_driver.cpp:404 | folding keeps the region of every node, so a folded literal covers the sign |
| StatementFolding.StatementsKeepTheirMeaning | src/mizugaki/parser/sql_parser.yy:3420-3486 | it means what the statement as written means, and has as many plus and minus signs |
| StatementFolding.StatementsShrink | src/mizugaki/parser/sql_tree_validator.cpp:59-92 | the validator counts one node less for each fold in what it visits, and never goes deeper |
| StatementFolding.FoldingKeepsAcceptance | src/mizugaki/parser/sql_tree_validator.cpp:864-879 | statements accepted unfolded are accepted folded, under any limits |
| IdentifierChains.TryMergeIdentifierChain | src/mizugaki/parser/sql_driver.cpp:258-276 | succeeds exactly on a variable below one-argument NEXT VALUE FOR calls, and consumes both arguments or neither |
| IdentifierChains.MergedWrapper | src/mizugaki/parser/sql_driver.cpp:262-273 | below NEXT VALUE FOR the merge happens inside, and the region of the call grows to cover the result |
| IdentifierChains.MergingExtendsTheName | src/mizugaki/parser/sql_driver.cpp:258-287 | keeps the number of wrappers, appends the identifier to the parts of the name, covers all regions |
| IdentifierChains.MergingKeepsNesting | src/mizugaki/parser/sql_driver.cpp:266-284 | over well-nested regions the result spans the hull of qualifier and identifier and stays well nested |
| IdentifierChains.BuiltNameMeasures | src/mizugaki/parser/sql_driver.cpp:258-287 | n - 1 merges build a reference to exactly those n parts, of 2n nodes and height n + 1 |
| DelimitedIdentifiers.ParseDelimitedIdentifier | src/mizugaki/parser/sql_driver.cpp:332-353 | the loop computes the decoded text and whether a quote is left open |
| DelimitedIdentifiers.DelimitedRoundTrip | src/mizugaki/parser/sql_driver.cpp:332-353 | delimiting any nonempty string and decoding gives it back, with the closing assertion true |
| DelimitedIdentifiers.DoublingRestoresBodies | src/mizugaki/parser/sql_driver.cpp:332-353 | re-doubling the decoded text restores a body if and only if every quote in it is paired |
| DelimitedIdentifiers.DecodingIsInjective | src/mizugaki/parser/sql_driver.cpp:332-353 | different valid tokens decode to different identifiers |
| DelimitedIdentifiers.ClosingAssertion | src/mizugaki/parser/sql_driver.cpp:351 | the assertion holds exactly when each quote is followed by some character it escapes |
| DelimitedIdentifiers.ClosingAssertionIsWeaker | src/mizugaki/parser/sql_driver.cpp:351 | a token for which it holds although the lexer would reject it |
| DelimitedIdentifiers.ChecksAgree | src/mizugaki/parser/sql_driver.cpp:314-326 | exactly the names that start with two underscores fail, written plainly or delimited |
| DelimitedIdentifiers.ToDelimitedIdentifier | src/mizugaki/parser/sql_driver.cpp:364-371 | the name node holds the decoded text, the delimited kind and the location |
| ExpectedTokens.CollapseIdentifierLikeTokens | src/mizugaki/parser/sql_scanner.cpp:73-95 | if an identifier is expected: one regular identifier, then exactly the candidates that are neither identifiers nor contextual keywords, in their order; otherwise the list unchanged |
| ExpectedTokens.OthersAreKept | src/mizugaki/parser/sql_scanner.cpp:86-93 | every other candidate keeps its multiplicity, identifier-like ones disappear |
| ExpectedTokens.CollapsingIsIdempotent | src/mizugaki/parser/sql_scanner.cpp:73-95 | collapsing twice is collapsing once, never lengthens the list, and leaves one identifier-like kind, in front |

## Left out

- The grammar and most lexer rules: the lexer is modelled by what a rule consumes, its comment states and the text of its comment rules; the parser is a client that draws matches and reports statements or an error.
- SqlScanner.Step: what an action reports is handed to the driver at the end of the action, in the action's order, rather than from inside it.
- SqlScanner.SqlScanner.Match: documents are shorter than 2^64 - 3 bytes, so the cursor never wraps; matching after the end of file, which the parser does not ask for, is not modelled.
- TreeValidator.Engine.Check: the node counter is unbounded; a tree with 2^64 nodes does not fit in memory.
- VisitedTree.VisitsAtMostAllNodes: stated over the visited tree; `SkippedFields` lists which syntax nodes have a skipped field.
- IdentifierChains.TryMergeIdentifierChain: nodes are values, so pointer ownership is reduced to consumed or unchanged.
- DelimitedIdentifiers.DoublingRestoresBodies: the lexer's exclusion of control characters from delimited identifiers plays no part in decoding and is not modelled.
- Null pointers are modelled for the fields documented as optional; the visitor's null check on mandatory fields is not.
- Enumerated attributes of nodes (operators, quantifiers, options, join kinds) that no modelled code inspects are uninterpreted.
- Diagnostic message text, stream output, serialization, hashing and debug levels.
- `validate_count`, `try_build_type`, `to_size`, `image` and `parse_regular_identifier`: each is one comparison, wrapper or library call.
- The analyzer, the placeholder map, option classes, and the example programs.
