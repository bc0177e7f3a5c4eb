/**
 How placeholders are numbered: by the `?` tokens the lexer has matched, as the driver answers the
 parser when it asks about a token.
 */
module PlaceholderNumbers {
  import opened Options
  import opened Regions
  import opened CommentLog
  import opened SqlScanner
  import D = SqlDriver

  // How many placeholders the lexer matched.
  function Placeholders(rules: seq<Rule>): nat {
    if rules == [] then 0
    else
      var n := |rules| - 1;
      Placeholders(rules[..n]) + if rules[n].Placeholder? then 1 else 0
  }

  // A run is its first part followed by the rest.
  lemma {:induction false} RunSplits(s: Scan, pre: seq<Rule>, post: seq<Rule>, size: nat)
    requires s.commentBegin <= s.cursor && CanRun(s, pre + post, size)
    ensures CanRun(s, pre, size) && CanRun(After(s, pre), post, size)
    ensures After(s, pre).commentBegin <= After(s, pre).cursor
    decreases pre
  {
    if pre == [] {
      assert pre + post == post;
    } else {
      assert (pre + post)[0] == pre[0] && (pre + post)[1..] == pre[1..] + post;
      RunSplits(Next(s, pre[0]), pre[1..], post, size);
    }
  }

  lemma {:induction false} MarksSplit(s: Scan, pre: seq<Rule>, post: seq<Rule>, size: nat)
    requires size < NPOS - 2 && s.commentBegin <= s.cursor && CanRun(s, pre + post, size)
    requires CanRun(s, pre, size) && CanRun(After(s, pre), post, size)
    requires After(s, pre).commentBegin <= After(s, pre).cursor
    ensures AllMarks(s, pre + post, size) == AllMarks(s, pre, size) + AllMarks(After(s, pre), post, size)
    decreases pre
  {
    if pre == [] {
      assert pre + post == post;
      assert [] + AllMarks(s, post, size) == AllMarks(s, post, size);
    } else {
      assert (pre + post)[0] == pre[0] && (pre + post)[1..] == pre[1..] + post;
      MarksSplit(Next(s, pre[0]), pre[1..], post, size);
    }
  }

  // One mark per placeholder.
  lemma {:induction false} MarksCountPlaceholders(s: Scan, rules: seq<Rule>, size: nat)
    requires size < NPOS - 2 && s.commentBegin <= s.cursor && CanRun(s, rules, size)
    ensures |AllMarks(s, rules, size)| == Placeholders(rules)
    decreases |rules|
  {
    if rules != [] {
      var n := |rules| - 1;
      assert rules == rules[..n] + [rules[n]];
      RunSplits(s, rules[..n], [rules[n]], size);
      MarksSplit(s, rules[..n], [rules[n]], size);
      MarksCountPlaceholders(s, rules[..n], size);
      OneMark(After(s, rules[..n]), rules[n], size);
    }
  }

  lemma {:induction false} OneMark(s: Scan, rule: Rule, size: nat)
    requires size < NPOS - 2 && s.commentBegin <= s.cursor && CanRun(s, [rule], size)
    ensures AllMarks(s, [rule], size) == if rule.Placeholder? then [s.cursor] else []
  {
    assert [rule][1..] == [];
    assert AllMarks(Next(s, rule), [], size) == [];
  }

  // The marks of a run lie behind everything still to be reported.
  lemma {:induction false} MarksAreSettled(s: Scan, rules: seq<Rule>, size: nat)
    requires size < NPOS - 2 && s.commentBegin <= s.cursor && CanRun(s, rules, size)
    ensures s.Settled() <= After(s, rules).Settled()
    ensures forall p <- AllMarks(s, rules, size) :: p < After(s, rules).Settled()
    decreases rules
  {
    if rules != [] { MarksAreSettled(Next(s, rules[0]), rules[1..], size); }
  }

  lemma {:induction false} OrdinalOfMark(marks: seq<Position>, i: nat, token: Region)
    requires Increasing(marks) && NPOS !in marks && i < |marks|
    requires token.begin == marks[i] && token.end != NPOS
    ensures D.Ordinal(marks, token) == i + 1
  {
    assert marks + [] == marks;
    D.OrdinalsNumberTheMarks(marks, []);
    assert token == Region(marks[i], token.end);
  }

  // The marks of a run around one match.
  lemma {:induction false} MarksAround(pre: seq<Rule>, rule: Rule, post: seq<Rule>, size: nat)
    requires size < NPOS - 2 && CanRun(START, pre + ([rule] + post), size)
    ensures var s := After(START, pre);
            && s.commentBegin <= s.cursor && s.cursor + rule.Length() <= size && CanRun(START, pre, size)
            && CanRun(s, [rule] + post, size) && CanRun(Next(s, rule), post, size)
            && AllMarks(START, pre + ([rule] + post), size)
               == AllMarks(START, pre, size) + (Mark(s, rule) + AllMarks(Next(s, rule), post, size))
  {
    var rest := [rule] + post;
    RunSplits(START, pre, rest, size);
    MarksSplit(START, pre, rest, size);
    assert rest[0] == rule && rest[1..] == post;
  }

  lemma {:induction false} NothingMarkedAfterEnd(s: Scan, rule: Rule, post: seq<Rule>, size: nat)
    requires size < NPOS - 2 && s.commentBegin <= s.cursor && CanRun(s, [rule] + post, size)
    requires !rule.Placeholder? && Yields(s, rule).Some?
    ensures Yields(s, rule).value.begin !in AllMarks(Next(s, rule), post, size)
  {
    assert ([rule] + post)[1..] == post;
    MarksIncrease(Next(s, rule), post, size);
    if rule.EndOfFile? { assert post == []; }
  }

  lemma {:induction false} PlaceholderIsNumbered(pre: seq<Rule>, post: seq<Rule>, size: nat, token: Region)
    requires size < NPOS - 2 && CanRun(START, pre + ([Placeholder] + post), size)
    requires token.begin == After(START, pre).cursor && token.end != NPOS
    ensures D.Ordinal(AllMarks(START, pre + ([Placeholder] + post), size), token) == 1 + Placeholders(pre)
  {
    var all := AllMarks(START, pre + ([Placeholder] + post), size);
    MarksAround(pre, Placeholder, post, size);
    MarksCountPlaceholders(START, pre, size);
    MarksIncrease(START, pre + ([Placeholder] + post), size);
    assert all[Placeholders(pre)] == token.begin;
    OrdinalOfMark(all, Placeholders(pre), token);
  }

  lemma {:induction false} OthersAreNotNumbered(pre: seq<Rule>, rule: Rule, post: seq<Rule>, size: nat)
    requires size < NPOS - 2 && CanRun(START, pre + ([rule] + post), size) && !rule.Placeholder?
    requires var s := After(START, pre); s.commentBegin <= s.cursor && s.cursor + rule.Length() <= size
    requires Yields(After(START, pre), rule).Some?
    ensures Yields(After(START, pre), rule).value.begin !in AllMarks(START, pre + ([rule] + post), size)
  {
    MarksAround(pre, rule, post, size);
    MarksAreSettled(START, pre, size);
    NothingMarkedAfterEnd(After(START, pre), rule, post, size);
  }

  // Wherever a run goes on, a placeholder is numbered by the placeholders matched before it, and no
  // other token is taken for one.
  lemma {:induction false} TokensAreNumbered(pre: seq<Rule>, rule: Rule, post: seq<Rule>, size: nat)
    requires size < NPOS - 2 && CanRun(START, pre + ([rule] + post), size)
    ensures var s := After(START, pre);
            && s.commentBegin <= s.cursor && s.cursor + rule.Length() <= size
            && (Yields(s, rule).Some? ==>
                  D.Ordinal(AllMarks(START, pre + ([rule] + post), size), Yields(s, rule).value)
                  == if rule.Placeholder? then 1 + Placeholders(pre) else 0)
  {
    var s := After(START, pre);
    MarksAround(pre, rule, post, size);
    if rule.Placeholder? {
      PlaceholderIsNumbered(pre, post, size, Yields(s, rule).value);
    } else if Yields(s, rule).Some? {
      OthersAreNotNumbered(pre, rule, post, size);
    }
  }

  // The question the grammar asks about a token, put to the driver after any run.
  method FindAfterRun(pre: seq<Rule>, rule: Rule, post: seq<Rule>, size: nat) returns (ordinal: nat)
    requires size < NPOS - 2 && CanRun(START, pre + ([rule] + post), size)
    requires var s := After(START, pre); s.commentBegin <= s.cursor && s.cursor + rule.Length() <= size
    requires Yields(After(START, pre), rule).Some?
    ensures ordinal == if rule.Placeholder? then 1 + Placeholders(pre) else 0
  {
    var driver := new D.SqlDriver(None);
    var scanner := new SqlScanner();
    Run(scanner, driver, pre + ([rule] + post), START, size);
    TokensAreNumbered(pre, rule, post, size);
    assert [] + AllMarks(START, pre + ([rule] + post), size) == AllMarks(START, pre + ([rule] + post), size);
    ordinal := driver.FindPlaceholderMark(Yields(After(START, pre), rule).value);
  }
}
