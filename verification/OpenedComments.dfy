/**
 Which comments a run opens, and which of them reach the driver: all, unless the document ends inside
 a bracketed comment.
 */
module OpenedComments {
  import opened Options
  import opened Regions
  import opened CommentLog
  import opened SqlScanner
  import D = SqlDriver

  function Begins(cs: seq<Region>): seq<int> { seq(|cs|, i requires 0 <= i < |cs| => cs[i].begin) }

  // Where comments are opened.
  function Openings(s: Scan, rules: seq<Rule>): seq<int>
    decreases rules
  {
    if rules == [] then []
    else Opening(s, rules[0]) + Openings(Next(s, rules[0]), rules[1..])
  }

  function Opening(s: Scan, rule: Rule): seq<int> { if rule.OpenBracketed? || rule.OpenSimple? then [s.cursor] else [] }

  // The opening of the comment the scanner is in.
  function Pending(s: Scan): seq<int> { if s.InComment() then [s.commentBegin] else [] }

  // The opening of the comment that the run stops in, or that the end of file cuts off.
  function LeftOpen(s: Scan, rules: seq<Rule>): seq<int>
    decreases rules
  {
    if rules == [] then Pending(s)
    else if rules[0].EndOfFile? && s.mode.BracketedComment? then [s.commentBegin]
    else LeftOpen(Next(s, rules[0]), rules[1..])
  }

  // Every run reports the comments it opens, one by one and in order, but for the one left open.
  lemma {:induction false} OpenedCommentsAreReported(s: Scan, rules: seq<Rule>, size: nat)
    requires size < NPOS - 2 && s.commentBegin <= s.cursor && CanRun(s, rules, size)
    ensures Begins(CommentsOf(AllReports(s, rules, size))) + LeftOpen(s, rules)
         == Pending(s) + Openings(s, rules)
    decreases rules
  {
    if rules == [] {
      assert AllReports(s, rules, size) == [];
    } else if rules[0].EndOfFile? && s.mode.BracketedComment? {
      CutOffIsNotReported(s, rules, size);
    } else {
      var next := Next(s, rules[0]);
      var first, rest := Reports(s, rules[0]), AllReports(next, rules[1..], size);
      OpenedCommentsAreReported(next, rules[1..], size);
      CommentsConcat(first, rest);
      BeginsConcat(CommentsOf(first), CommentsOf(rest));
      OpensAndCloses(s, rules[0]);
      Regroup(Begins(CommentsOf(first)), Begins(CommentsOf(rest)), LeftOpen(next, rules[1..]),
              Pending(s), Opening(s, rules[0]), Pending(next), Openings(next, rules[1..]));
    }
  }

  lemma {:induction false} CutOffIsNotReported(s: Scan, rules: seq<Rule>, size: nat)
    requires size < NPOS - 2 && s.commentBegin <= s.cursor && CanRun(s, rules, size)
    requires rules != [] && rules[0].EndOfFile? && s.mode.BracketedComment?
    ensures Begins(CommentsOf(AllReports(s, rules, size))) == [] && Openings(s, rules) == []
  {
    assert rules[1..] == [];
    var next := Next(s, rules[0]);
    assert AllReports(next, [], size) == [] && Openings(next, []) == [];
    assert AllReports(s, rules, size) == Reports(s, rules[0]);
    FirstComment(s, rules[0]);
  }

  lemma {:induction false} Regroup(a: seq<int>, b: seq<int>, c: seq<int>, d: seq<int>, e: seq<int>, f: seq<int>,
                                   g: seq<int>)
    requires b + c == f + g && a + f == d + e
    ensures (a + b) + c == d + (e + g)
  {
    assert (a + b) + c == a + (b + c);
    assert a + (f + g) == (a + f) + g;
    assert (d + e) + g == d + (e + g);
  }

  lemma {:induction false} BeginsConcat(a: seq<Region>, b: seq<Region>)
    ensures Begins(a + b) == Begins(a) + Begins(b)
  {
  }

  // What one match reports, opens and leaves open.
  lemma {:induction false} OpensAndCloses(s: Scan, rule: Rule)
    requires s.commentBegin <= s.cursor && s.cursor + rule.Length() < NPOS - 2
    requires Enabled(s, rule, s.cursor + rule.Length())
    ensures !(rule.EndOfFile? && s.mode.BracketedComment?) ==>
              Begins(CommentsOf(Reports(s, rule))) + Pending(Next(s, rule)) == Pending(s) + Opening(s, rule)
  {
    FirstComment(s, rule);
  }

  lemma {:induction false} FirstComment(s: Scan, rule: Rule)
    requires s.commentBegin <= s.cursor && s.cursor + rule.Length() < NPOS
    ensures Begins(CommentsOf(Reports(s, rule)))
         == (if rule.CloseBracketed? || rule.LineBreak? || (rule.EndOfFile? && s.mode.SimpleComment?)
             then [s.commentBegin] else [])
  {
    var log := Reports(s, rule);
    if |log| == 2 { assert Comments(log, 0, 1) == [log[0].region]; }
    if |log| >= 1 { assert Comments(log, 0, 0) == []; }
  }

  lemma {:induction false} CommentsConcat(a: seq<Event>, b: seq<Event>)
    ensures CommentsOf(a + b) == CommentsOf(a) + CommentsOf(b)
  {
    CommentsConcatUpTo(a, b, |b|);
  }

  lemma {:induction false} CommentsConcatUpTo(a: seq<Event>, b: seq<Event>, n: nat)
    requires n <= |b|
    ensures Comments(a + b, 0, |a| + n) == CommentsOf(a) + Comments(b, 0, n)
  {
    if n == 0 {
      CommentsKeep(a, b, 0, |a|);
    } else {
      CommentsConcatUpTo(a, b, n - 1);
    }
  }

  // The state in which a complete run meets the end of file.
  function BeforeEnd(s: Scan, rules: seq<Rule>): Scan
    requires rules != []
  {
    After(s, rules[..|rules| - 1])
  }

  lemma {:induction false} FinishedRunEnds(s: Scan, rules: seq<Rule>, size: nat)
    requires CanRun(s, rules, size) && !s.mode.Finished? && After(s, rules).mode.Finished?
    ensures rules != [] && rules[|rules| - 1].EndOfFile?
    ensures LeftOpen(s, rules)
         == if BeforeEnd(s, rules).mode.BracketedComment? then [BeforeEnd(s, rules).commentBegin] else []
    decreases rules
  {
    if rules[0].EndOfFile? {
      assert rules[1..] == [];
    } else {
      FinishedRunEnds(Next(s, rules[0]), rules[1..], size);
      assert rules[1..][..|rules| - 2] == rules[..|rules| - 1][1..];
    }
  }

  // A complete run reports all comments it opens if and only if it does not end inside a bracketed
  // one; otherwise it reports all but that last one.
  lemma {:induction false} CompleteRunReportsItsComments(rules: seq<Rule>, size: nat)
    requires size < NPOS - 2 && CanRun(START, rules, size) && After(START, rules).mode.Finished?
    ensures rules != []
    ensures Begins(CommentsOf(AllReports(START, rules, size))) == Openings(START, rules)
       <==> !BeforeEnd(START, rules).mode.BracketedComment?
    ensures BeforeEnd(START, rules).mode.BracketedComment? ==>
              Openings(START, rules)
              == Begins(CommentsOf(AllReports(START, rules, size))) + [BeforeEnd(START, rules).commentBegin]
  {
    var begins := Begins(CommentsOf(AllReports(START, rules, size)));
    FinishedRunEnds(START, rules, size);
    OpenedCommentsAreReported(START, rules, size);
    NothingMissing(begins, LeftOpen(START, rules), Openings(START, rules));
  }

  lemma {:induction false} NothingMissing(a: seq<int>, b: seq<int>, all: seq<int>)
    requires a + b == [] + all
    ensures a + b == all && (a == all <==> b == [])
  {
    assert |a + b| == |all|;
    assert b == [] ==> a + b == a;
  }

  // `--`, a line break, `/*` and the end of the document: the second comment is not reported, and the
  // token returned for it cannot be looked up, although a comment leads the end of the document.
  lemma {:induction false} UnclosedCommentIsLost()
    ensures var rules, end := [OpenSimple, LineBreak(1), OpenBracketed, EndOfFile], Scan(BracketedComment, 5, 3);
            && CanRun(START, rules, 5) && After(START, rules).mode.Finished? && Openings(START, rules) == [0, 3]
            && AllReports(START, rules, 5) == [Comment(Region(0, 2)), Separator(Region(5, 5))]
            && BeforeEnd(START, rules) == end && Yields(end, EndOfFile) == Some(Region(3, 5))
            && !(exists k :: D.Reported(AllReports(START, rules, 5), 3, k))
            && Before(AllReports(START, rules, 5), 1) == [Region(0, 2)]
  {
    var rules := [OpenSimple, LineBreak(1), OpenBracketed, EndOfFile];
    var s1, s2, s3 := Scan(SimpleComment, 2, 0), Scan(Initial, 3, 0), Scan(BracketedComment, 5, 3);
    assert rules[1..] == [LineBreak(1), OpenBracketed, EndOfFile];
    assert rules[1..][1..] == [OpenBracketed, EndOfFile];
    assert rules[1..][1..][1..] == [EndOfFile];
    assert rules[1..][1..][1..][1..] == [];
    assert Next(START, rules[0]) == s1 && Next(s1, LineBreak(1)) == s2 && Next(s2, OpenBracketed) == s3;
    var log := [Comment(Region(0, 2)), Separator(Region(5, 5))];
    assert AllReports(START, rules, 5) == log;
    assert GapStart(log, 1) == 0 && Comments(log, 0, 0) == [];
    var front := rules[..3];
    assert front[1..] == [LineBreak(1), OpenBracketed] && front[1..][1..] == [OpenBracketed];
    assert front[1..][1..][1..] == [];
    assert After(START, front) == After(s1, front[1..]) == After(s2, front[1..][1..]) == After(s3, []) == s3;
  }
}
