/**
 The glue of `sql_parser`: what becomes of a driver's result once the generated parser has run. The
 parser itself is a client that reports the statements or an error to the driver.
 */
module SqlParser {
  import opened Options
  import opened Regions
  import opened Ast
  import opened Results
  import opened VisitedTree
  import opened TreeValidator
  import opened CommentLog
  import T = CommentTexts
  import D = SqlDriver
  import S = SqlScanner

  // The result of the validator laid over that of the driver.
  function Checked(r: ParserResult, nodeLimit: nat, depthLimit: nat): ParserResult {
    if r.value.None? then r
    else
      var j := Validation(r.value.value.statements, nodeLimit, depthLimit);
      if j.diagnostic.Some? then Failed(j.diagnostic.value)
      else r.(maxTreeDepth := j.maxDepth, treeNodeCount := j.nodeCount)
  }

  // The diagnostic is about the first visit of the walk that goes beyond a limit, and about the count
  // if that visit exceeds both.
  ghost predicate BlamesFirst(d: Diagnostic, walk: seq<Visit>, nodeLimit: nat, depthLimit: nat) {
    exists k: nat | k < |walk| ::
      && d.code == ExceedNumberOfElements && d.region == walk[k].region
      && (nodeLimit == 0 || k <= nodeLimit)
      && (depthLimit == 0 || forall i | 0 <= i < k :: walk[i].depth <= depthLimit)
      && (if nodeLimit > 0 && k + 1 > nodeLimit then d.reason == NodeCount(k + 1)
          else walk[k].depth > depthLimit > 0 && d.reason == NodeDepth(walk[k].depth))
  }

  lemma {:induction false} RejectionBlamesFirst(ts: seq<Tree>, nodeLimit: nat, depthLimit: nat)
    requires Judge(PreorderOf(ts, 1), nodeLimit, depthLimit).diagnostic.Some?
    ensures var j := Judge(PreorderOf(ts, 1), nodeLimit, depthLimit);
            BlamesFirst(j.diagnostic.value, PreorderOf(ts, 1), nodeLimit, depthLimit)
  {
    var walk := PreorderOf(ts, 1);
    var k := RejectionIsPrompt(ts, nodeLimit, depthLimit);
    assert k > 0 ==> !Breaks(walk[k - 1], k - 1, nodeLimit, depthLimit);
    assert forall i | 0 <= i < k :: !Breaks(walk[i], i, nodeLimit, depthLimit);
  }

  lemma {:induction false} JudgedByLimits(ts: seq<Tree>, nodeLimit: nat, depthLimit: nat)
    ensures var j := Judge(PreorderOf(ts, 1), nodeLimit, depthLimit);
            if (nodeLimit == 0 || NodesOf(ts) <= nodeLimit) && (depthLimit == 0 || HeightOf(ts) <= depthLimit) then
              j == Judgement(None, NodesOf(ts), HeightOf(ts))
            else
              j.diagnostic.Some? && BlamesFirst(j.diagnostic.value, PreorderOf(ts, 1), nodeLimit, depthLimit)
  {
    RejectsExactlyBeyondLimits(ts, nodeLimit, depthLimit);
    if Judge(PreorderOf(ts, 1), nodeLimit, depthLimit).diagnostic.Some? {
      RejectionBlamesFirst(ts, nodeLimit, depthLimit);
    }
  }

  // Without limits nothing is measured; within them the measures published are those of the tree;
  // beyond them there is a diagnostic and nothing else.
  method Conclude(result: ParserResult, nodeLimit: nat, depthLimit: nat) returns (r: ParserResult)
    ensures r == Checked(result, nodeLimit, depthLimit)
    ensures result.value.None? ==> r == result
    ensures result.value.Some? ==>
              var ts := StatementTrees(result.value.value.statements);
              if nodeLimit == 0 && depthLimit == 0 then
                && r.value == result.value && r.diagnostic == result.diagnostic
                && r.treeNodeCount == 0 && r.maxTreeDepth == 0
              else if (nodeLimit == 0 || NodesOf(ts) <= nodeLimit)
                      && (depthLimit == 0 || HeightOf(ts) <= depthLimit) then
                && r.value == result.value && r.diagnostic == result.diagnostic
                && r.treeNodeCount == NodesOf(ts) && r.maxTreeDepth == HeightOf(ts)
              else
                && r.value == None && r.treeNodeCount == 0 && r.maxTreeDepth == 0
                && r.diagnostic.Some? && BlamesFirst(r.diagnostic.value, PreorderOf(ts, 1), nodeLimit, depthLimit)
  {
    if result.value.Some? { JudgedByLimits(StatementTrees(result.value.value.statements), nodeLimit, depthLimit); }
    r := result;
    if r.value.Some? {
      var checker := new SqlTreeValidator(nodeLimit, depthLimit);
      var diagnostic := checker.Validate(r.value.value);
      if diagnostic.Some? {
        return Failed(diagnostic.value);
      }
      r := r.(maxTreeDepth := checker.lastMaxDepth);
      r := r.(treeNodeCount := checker.lastNodeCount);
    }
  }

  // A whole parse of a document. `rules` is what the lexer matches, down to the end of file; the
  // generated parser either reduces it to `statements` or reports `failure` at some point.
  method Parse(document: string, rules: seq<S.Rule>, statements: seq<Statement>, failure: Option<Diagnostic>,
               nodeLimit: nat, depthLimit: nat) returns (r: ParserResult)
    requires |document| < NPOS - 2 && S.CanRun(S.START, rules, |document|)
    ensures failure.Some? ==> r == Failed(failure.value)
    ensures failure.None? ==>
              r == Checked(NO_RESULT.(value := Some(Parsed(document, rules, statements))), nodeLimit, depthLimit)
    ensures r.value.Some? ==> HasTheComments(r.value.value, document, rules)
    ensures failure.None? ==>
              var n := |statements| - 1;
              var kept := if n < 0 then []
                          else statements[..n] + if statements[n].EmptyStatement? then [] else [statements[n]];
              var ts := StatementTrees(kept);
              if nodeLimit == 0 && depthLimit == 0 then
                && r.value.Some? && r.value.value.statements == kept && r.diagnostic == None
                && r.treeNodeCount == 0 && r.maxTreeDepth == 0
              else if (nodeLimit == 0 || NodesOf(ts) <= nodeLimit)
                      && (depthLimit == 0 || HeightOf(ts) <= depthLimit) then
                && r.value.Some? && r.value.value.statements == kept && r.diagnostic == None
                && r.treeNodeCount == NodesOf(ts) && r.maxTreeDepth == HeightOf(ts)
              else
                && r.value == None && r.treeNodeCount == 0 && r.maxTreeDepth == 0
                && r.diagnostic.Some? && BlamesFirst(r.diagnostic.value, PreorderOf(ts, 1), nodeLimit, depthLimit)
  {
    var driver := new D.SqlDriver(Some(document));
    var scanner := new S.SqlScanner();
    S.Run(scanner, driver, rules, S.START, |document|);
    assert [] + S.AllReports(S.START, rules, |document|) == driver.log == S.AllReports(S.START, rules, |document|);
    if failure.Some? {
      driver.Error(failure.value.code, failure.value.region, failure.value.reason);
    } else {
      driver.Success(statements);
    }
    r := Conclude(driver.result, nodeLimit, depthLimit);
    ParsedHasTheComments(document, rules, statements);
  }

  function Parsed(document: string, rules: seq<S.Rule>, statements: seq<Statement>): CompilationUnit
    requires |document| < NPOS - 2 && S.CanRun(S.START, rules, |document|)
  {
    CompilationUnit(D.WithoutTrailingBlank(statements), CommentsOf(S.AllReports(S.START, rules, |document|)))
  }

  // When the lexer has reached the end of the document, the comments of the unit are the leading
  // comments of the tokens, end to end; when its matches fit the text, they are comments of the text.
  ghost predicate HasTheComments(unit: CompilationUnit, document: string, rules: seq<S.Rule>)
    requires |document| < NPOS - 2 && S.CanRun(S.START, rules, |document|)
  {
    var log := S.AllReports(S.START, rules, |document|);
    && (S.After(S.START, rules).mode.Finished? ==> unit.comments == AllLeading(log, |log|))
    && (T.Lexes(document, S.START, rules) ==> forall c <- unit.comments :: T.IsCommentText(document, Comment(c)))
  }

  lemma {:induction false} ParsedHasTheComments(document: string, rules: seq<S.Rule>, statements: seq<Statement>)
    requires |document| < NPOS - 2 && S.CanRun(S.START, rules, |document|)
    ensures HasTheComments(Parsed(document, rules, statements), document, rules)
  {
    var log := S.AllReports(S.START, rules, |document|);
    if S.After(S.START, rules).mode.Finished? { S.EveryRunConservesComments(rules, |document|); }
    if T.Lexes(document, S.START, rules) {
      T.ReportedCommentsAreComments(document, S.START, rules);
      CommentsAreEvents(log, 0, |log|);
    }
  }

  // Loosening the limits never turns an accepted document away, and changes nothing in the unit.
  lemma {:induction false} WeakerLimitsAcceptMore(r: ParserResult, n: nat, d: nat, n': nat, d': nat)
    requires r.value.Some? && Checked(r, n, d).value.Some? && Weaker(n, n') && Weaker(d, d')
    ensures Checked(r, n', d').value == Checked(r, n, d).value == r.value
  {
    AcceptanceIsMonotone(r.value.value.statements, n, d, n', d');
  }

  // Any two accepting runs, however their limits compare, publish the same result if and only if
  // both measure the tree or neither does, or the unit is empty.
  lemma {:induction false} AcceptedResultsAgree(r: ParserResult, n: nat, d: nat, n': nat, d': nat)
    requires r.value.Some? && Checked(r, n, d).value.Some? && Checked(r, n', d').value.Some?
    ensures Checked(r, n, d) == Checked(r, n', d')
       <==> ((n > 0 || d > 0) == (n' > 0 || d' > 0) || r.value.value.statements == [])
  {
    AcceptingRunsAgree(r.value.value.statements, n, d, n', d');
  }
}
