/** What a parse hands back: a compilation unit or a diagnostic, and the measures of the tree. */
module Results {
  import opened Options
  import opened Regions
  import opened Ast

  datatype Code = ExceedNumberOfElements | OtherCode(code: int)

  // Why the diagnostic was raised; the message text itself is not modelled.
  datatype Reason = NodeCount(count: nat) | NodeDepth(depth: nat) | OtherReason(message: string)

  datatype Diagnostic = Diagnostic(code: Code, reason: Reason, region: Region)

  datatype ParserResult = ParserResult(
    value: Option<CompilationUnit>,
    diagnostic: Option<Diagnostic>,
    treeNodeCount: nat,
    maxTreeDepth: nat)

  const NO_RESULT := ParserResult(None, None, 0, 0)

  function Failed(d: Diagnostic): ParserResult { NO_RESULT.(diagnostic := Some(d)) }
}
