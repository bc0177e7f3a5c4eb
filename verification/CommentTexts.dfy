/**
 What the reported comments look like in the document: the lexer's rules matched against the text
 itself, so that the regions reported are neither too short nor too long. A character of the
 document stands for one byte.
 */
module CommentTexts {
  import opened Regions
  import opened CommentLog
  import opened SqlScanner
  import D = SqlDriver

  predicate At(text: string, i: nat, word: string) { i + |word| <= |text| && text[i..i + |word|] == word }

  predicate AtLineBreak(text: string, i: nat) { At(text, i, "\n") || At(text, i, "\r\n") }

  // The text at the cursor is what the rule matches. Inside a comment, a closing mark or a line break
  // is always preferred to plain text.
  predicate Matches(text: string, s: Scan, rule: Rule) {
    match rule
    case Placeholder => At(text, s.cursor, "?")
    case OpenBracketed => At(text, s.cursor, "/*")
    case OpenSimple => At(text, s.cursor, "--")
    case CloseBracketed => At(text, s.cursor, "*/")
    case LineBreak(n) => (n == 1 && At(text, s.cursor, "\n")) || (n == 2 && At(text, s.cursor, "\r\n"))
    case CommentText(n) =>
      if s.mode.BracketedComment? then forall i: nat | s.cursor <= i < s.cursor + n :: !At(text, i, "*/")
      else forall i: nat | s.cursor <= i < s.cursor + n :: !AtLineBreak(text, i)
    case _ => true
  }

  ghost predicate Lexes(text: string, s: Scan, rules: seq<Rule>)
    decreases rules
  {
    rules == [] || (Matches(text, s, rules[0]) && Lexes(text, Next(s, rules[0]), rules[1..]))
  }

  // From an opening mark to the first closing mark after it.
  ghost predicate IsBracketed(text: string, r: Region) {
    && r.begin + 4 <= r.end && At(text, r.begin, "/*") && At(text, r.end - 2, "*/")
    && forall i: nat | r.begin + 2 <= i < r.end - 2 :: !At(text, i, "*/")
  }

  // From two dashes to the end of the line or of the document.
  ghost predicate IsSimple(text: string, r: Region) {
    && r.begin + 2 <= r.end && At(text, r.begin, "--")
    && (forall i: nat | r.begin <= i < r.end :: !AtLineBreak(text, i))
    && (r.end == |text| || AtLineBreak(text, r.end))
  }

  // The comment being scanned, so far.
  ghost predicate Open(text: string, s: Scan) {
    match s.mode
    case BracketedComment =>
      && s.commentBegin + 2 <= s.cursor && At(text, s.commentBegin, "/*")
      && forall i: nat | s.commentBegin + 2 <= i < s.cursor :: !At(text, i, "*/")
    case SimpleComment =>
      && s.commentBegin + 2 <= s.cursor && At(text, s.commentBegin, "--")
      && forall i: nat | s.commentBegin <= i < s.cursor :: !AtLineBreak(text, i)
    case _ => true
  }

  ghost predicate IsCommentText(text: string, e: Event) {
    e.Comment? ==> IsBracketed(text, e.region) || IsSimple(text, e.region)
  }

  lemma {:induction false} DashesAreNoLineBreak(text: string, b: nat)
    requires At(text, b, "--")
    ensures !AtLineBreak(text, b) && !AtLineBreak(text, b + 1)
  {
    assert text[b..b + 2][0] == '-' && text[b..b + 2][1] == '-';
    assert text[b] == '-' && text[b + 1] == '-';
    forall i | b <= i <= b + 1 ensures !At(text, i, "\r\n") {
      if i + 2 <= |text| { assert text[i..i + 2][0] == '-'; }
    }
  }

  lemma {:induction false} MatchKeepsOpen(text: string, s: Scan, rule: Rule)
    requires s.commentBegin <= s.cursor && |text| < NPOS - 2
    requires Open(text, s) && Enabled(s, rule, |text|) && Matches(text, s, rule)
    ensures Open(text, Next(s, rule))
    ensures forall e <- Reports(s, rule) :: IsCommentText(text, e)
  {
    if rule.OpenSimple? { DashesAreNoLineBreak(text, s.cursor); }
  }

  // In every run over a document, each comment reported is a comment of that document, from its
  // opening mark to its end.
  lemma {:induction false} ReportedCommentsAreComments(text: string, s: Scan, rules: seq<Rule>)
    requires s.commentBegin <= s.cursor && |text| < NPOS - 2
    requires Open(text, s) && CanRun(s, rules, |text|) && Lexes(text, s, rules)
    ensures forall e <- AllReports(s, rules, |text|) :: IsCommentText(text, e)
    decreases rules
  {
    if rules != [] {
      MatchKeepsOpen(text, s, rules[0]);
      ReportedCommentsAreComments(text, Next(s, rules[0]), rules[1..]);
    }
  }

  lemma {:induction false} SlashIsNoDash(text: string, i: nat)
    requires i < |text| && text[i] == '/'
    ensures !At(text, i, "--")
  {
    if i + 2 <= |text| { assert text[i..i + 2][0] == '/'; }
  }

  // A description is always a bracketed comment: a simple one does not start with a slash.
  lemma {:induction false} DescriptionsAreBracketed(text: string, r: Region)
    requires IsCommentText(text, Comment(r)) && D.IsDescription(text, r)
    ensures IsBracketed(text, r) && !IsSimple(text, r)
  {
    assert text[r.begin] == text[r.begin..r.begin + 3][0] == '/';
    SlashIsNoDash(text, r.begin);
  }

  // Exactly the bracketed comments that open with a second asterisk are descriptions; the asterisk of
  // the closing mark does not count.
  lemma {:induction false} DescribingComments(text: string, r: Region)
    requires IsBracketed(text, r)
    ensures D.IsDescription(text, r) <==> r.begin + 5 <= r.end && text[r.begin + 2] == '*'
  {
    assert text[r.begin..r.begin + 2] == "/*" && text[r.end - 2..r.end] == "*/";
    if r.begin + 5 <= r.end {
      assert text[r.begin..r.begin + 3] == text[r.begin..r.begin + 2] + [text[r.begin + 2]];
      assert "/**" == "/*" + ['*'];
    }
  }

  // Two regions that begin at the same mark cannot both be comments unless they are equal: the text
  // alone determines where a comment ends.
  lemma {:induction false} BracketedCommentsAreUnique(text: string, r: Region, s: Region)
    requires IsBracketed(text, r) && IsBracketed(text, s) && r.begin == s.begin
    ensures r == s
  {
  }

  lemma {:induction false} SimpleCommentsAreUnique(text: string, r: Region, s: Region)
    requires IsSimple(text, r) && IsSimple(text, s) && r.begin == s.begin
    ensures r == s
  {
    assert r.end <= |text| && s.end <= |text|;
  }

  lemma {:induction false} CommentsAreUnique(text: string, r: Region, s: Region)
    requires IsCommentText(text, Comment(r)) && IsCommentText(text, Comment(s)) && r.begin == s.begin
    ensures r == s
  {
    if IsBracketed(text, r) && IsBracketed(text, s) {
      BracketedCommentsAreUnique(text, r, s);
    } else if IsSimple(text, r) && IsSimple(text, s) {
      SimpleCommentsAreUnique(text, r, s);
    } else {
      MarksDiffer(text, r.begin);
    }
  }

  lemma {:induction false} MarksDiffer(text: string, i: nat)
    ensures !(At(text, i, "/*") && At(text, i, "--"))
  {
    if At(text, i, "/*") { assert text[i..i + 2][0] == '/'; }
  }
}
