/**
 The cursor of `sql_scanner`: how the matches of the lexer rules become byte regions, and how
 comments, tokens and placeholder marks reach the driver.
 */
module SqlScanner {
  import opened Options
  import opened Regions
  import opened CommentLog
  import D = SqlDriver

  // The start conditions of the lexer, and the state after the end of file.
  datatype Mode = Initial | BracketedComment | SimpleComment | Finished

  // What the lexer matched, by the bytes it consumed.
  datatype Rule =
    | Space(n: nat)
    | Token(n: nat)
    | Placeholder
    | OpenBracketed
    | OpenSimple
    | CommentText(n: nat)
    | CloseBracketed
    | LineBreak(n: nat)
    | EndOfFile
  {
    function Length(): nat {
      match this
      case Space(_) | Token(_) | CommentText(_) | LineBreak(_) => n
      case Placeholder => 1
      case OpenBracketed | OpenSimple | CloseBracketed => 2
      case EndOfFile => 0
    }
  }

  // ---- what a run of matches reports, in terms of the text alone --------------------------------

  datatype Scan = Scan(mode: Mode, cursor: nat, commentBegin: nat) {
    predicate InComment() { mode.BracketedComment? || mode.SimpleComment? }

    // No region reported so far reaches beyond this position.
    function Settled(): nat { if InComment() then commentBegin else cursor }
  }

  const START := Scan(Initial, 0, 0)

  // The rule can match at this point of a document of `size` bytes.
  predicate Enabled(s: Scan, rule: Rule, size: nat) {
    && s.cursor + rule.Length() <= size
    && (!rule.EndOfFile? ==> rule.Length() > 0)
    && match rule
       case Space(_) | Token(_) | Placeholder | OpenBracketed | OpenSimple => s.mode.Initial?
       case CommentText(_) => s.InComment()
       case CloseBracketed => s.mode.BracketedComment?
       case LineBreak(_) => s.mode.SimpleComment?
       case EndOfFile => !s.mode.Finished? && s.cursor == size
  }

  function Next(s: Scan, rule: Rule): Scan {
    var after := s.cursor + rule.Length();
    match rule
    case Space(_) | Token(_) | Placeholder | CommentText(_) => s.(cursor := after)
    case OpenBracketed => Scan(BracketedComment, after, s.cursor)
    case OpenSimple => Scan(SimpleComment, after, s.cursor)
    case CloseBracketed | LineBreak(_) => Scan(Initial, after, 0)
    case EndOfFile => Scan(Finished, after, 0)
  }

  // A comment runs from its opening mark through the closing mark, or up to the line break or the
  // end of file. A bracketed comment cut off by the end of file is not reported.
  function Reports(s: Scan, rule: Rule): seq<Event>
    requires s.commentBegin <= s.cursor && s.cursor + rule.Length() < NPOS
  {
    var text := Region(s.cursor, s.cursor + rule.Length());
    match rule
    case Token(_) | Placeholder => [Separator(text)]
    case CloseBracketed => [Comment(Region(s.commentBegin, text.end))]
    case LineBreak(_) => [Comment(Region(s.commentBegin, text.begin))]
    case EndOfFile =>
      (if s.mode.SimpleComment? then [Comment(Region(s.commentBegin, text.end))] else []) + [Separator(text)]
    case _ => []
  }

  // The region of the token handed to the parser, if the match is one; for a bracketed comment
  // cut off by the end of file, that of its opening mark.
  function Yields(s: Scan, rule: Rule): Option<Region>
    requires s.commentBegin <= s.cursor && s.cursor + rule.Length() < NPOS - 2
  {
    match rule
    case Token(_) | Placeholder => Some(Region(s.cursor, s.cursor + rule.Length()))
    case EndOfFile =>
      Some(if s.mode.BracketedComment? then Region(s.commentBegin, s.commentBegin + 2) else Region(s.cursor, s.cursor))
    case _ => None
  }

  function Mark(s: Scan, rule: Rule): seq<Position>
    requires s.cursor < NPOS
  {
    if rule.Placeholder? then [s.cursor] else []
  }

  // Reported regions are nonempty, pairwise disjoint, in document order and end by `limit`.
  predicate Tidy(log: seq<Event>, limit: nat) {
    log == [] ||
    var last := log[|log| - 1].region;
    last.begin < last.end <= limit && Tidy(log[..|log| - 1], last.begin)
  }

  // The invariant of every run. Only the end of file reports an empty region, and it is the last.
  ghost predicate Sound(s: Scan, log: seq<Event>, size: nat) {
    && s.commentBegin <= s.cursor <= size < NPOS - 2
    && (s.InComment() ==> s.commentBegin + 2 <= s.cursor)
    && (if s.mode.Finished?
        then log != [] && log[|log| - 1] == Separator(Region(s.cursor, s.cursor)) && Tidy(log[..|log| - 1], s.cursor)
        else Tidy(log, s.Settled()))
  }

  lemma {:induction false} TidyGrows(log: seq<Event>, limit: nat, e: Event)
    requires Tidy(log, limit) && limit <= e.region.begin < e.region.end
    ensures Tidy(log + [e], e.region.end)
  {
    assert (log + [e])[..|log|] == log;
  }

  lemma {:induction false} TidyIsDisjoint(log: seq<Event>, limit: nat)
    requires Tidy(log, limit) && limit < NPOS
    ensures InOrder(log)
    ensures forall i | 0 <= i < |log| :: log[i].region.end <= limit
    ensures forall i, j | 0 <= i < j < |log| :: log[i].region.end <= log[j].region.begin
  {
    if log != [] {
      var front := log[..|log| - 1];
      TidyIsDisjoint(front, log[|log| - 1].region.begin);
      assert forall i | 0 <= i < |front| :: log[i] == front[i];
    }
  }

  // Tidy regions are what the driver asks for.
  lemma {:induction false} TidyFollows(log: seq<Event>, limit: nat, r: Region, document: Option<string>)
    requires Tidy(log, limit) && limit <= r.begin <= r.end < NPOS
    requires document.Some? ==> r.end <= |document.value|
    ensures D.Follows(log, r, document)
  {
  }

  lemma {:induction false} EndKeepsSound(s: Scan, log: seq<Event>, size: nat)
    requires Sound(s, log, size) && Enabled(s, EndOfFile, size)
    ensures Sound(Next(s, EndOfFile), log + Reports(s, EndOfFile), size)
  {
    var reports := Reports(s, EndOfFile);
    var all := log + reports;
    if s.mode.SimpleComment? {
      TidyGrows(log, s.commentBegin, reports[0]);
      assert all[..|all| - 1] == log + [reports[0]];
    } else {
      assert all[..|all| - 1] == log;
    }
  }

  // One match keeps the invariant.
  lemma {:induction false} MatchKeepsSound(s: Scan, log: seq<Event>, rule: Rule, size: nat)
    requires Sound(s, log, size) && Enabled(s, rule, size)
    ensures Sound(Next(s, rule), log + Reports(s, rule), size)
  {
    match rule {
      case EndOfFile => EndKeepsSound(s, log, size);
      case Token(_) => TidyGrows(log, s.cursor, Reports(s, rule)[0]);
      case Placeholder => TidyGrows(log, s.cursor, Reports(s, rule)[0]);
      case CloseBracketed => TidyGrows(log, s.commentBegin, Reports(s, rule)[0]);
      case LineBreak(_) => TidyGrows(log, s.commentBegin, Reports(s, rule)[0]);
      case _ => assert log + [] == log;
    }
  }

  // ---- whole runs -------------------------------------------------------------------------------

  predicate CanRun(s: Scan, rules: seq<Rule>, size: nat)
    decreases rules
  {
    rules == [] || (Enabled(s, rules[0], size) && CanRun(Next(s, rules[0]), rules[1..], size))
  }

  function After(s: Scan, rules: seq<Rule>): Scan
    decreases rules
  {
    if rules == [] then s else After(Next(s, rules[0]), rules[1..])
  }

  function AllReports(s: Scan, rules: seq<Rule>, size: nat): seq<Event>
    requires size < NPOS - 2 && s.commentBegin <= s.cursor && CanRun(s, rules, size)
    decreases rules
  {
    if rules == [] then [] else Reports(s, rules[0]) + AllReports(Next(s, rules[0]), rules[1..], size)
  }

  function AllMarks(s: Scan, rules: seq<Rule>, size: nat): seq<Position>
    requires size < NPOS - 2 && s.commentBegin <= s.cursor && CanRun(s, rules, size)
    decreases rules
  {
    if rules == [] then [] else Mark(s, rules[0]) + AllMarks(Next(s, rules[0]), rules[1..], size)
  }

  lemma {:induction false} RunStep(s: Scan, rules: seq<Rule>, size: nat, log: seq<Event>, marks: seq<Position>)
    requires size < NPOS - 2 && s.commentBegin <= s.cursor && rules != [] && CanRun(s, rules, size)
    ensures After(s, rules) == After(Next(s, rules[0]), rules[1..])
    ensures log + AllReports(s, rules, size)
         == log + Reports(s, rules[0]) + AllReports(Next(s, rules[0]), rules[1..], size)
    ensures marks + AllMarks(s, rules, size)
         == marks + Mark(s, rules[0]) + AllMarks(Next(s, rules[0]), rules[1..], size)
  {
  }

  lemma {:induction false} RunKeepsSound(s: Scan, log: seq<Event>, rules: seq<Rule>, size: nat)
    requires Sound(s, log, size) && CanRun(s, rules, size)
    ensures Sound(After(s, rules), log + AllReports(s, rules, size), size)
    decreases rules
  {
    if rules == [] {
      assert log + [] == log;
    } else {
      MatchKeepsSound(s, log, rules[0], size);
      RunKeepsSound(Next(s, rules[0]), log + Reports(s, rules[0]), rules[1..], size);
      RunStep(s, rules, size, log, []);
    }
  }

  // Marks increase along a run, and each is the beginning of a reported token.
  lemma {:induction false} MarksIncrease(s: Scan, rules: seq<Rule>, size: nat)
    requires size < NPOS - 2 && s.commentBegin <= s.cursor && CanRun(s, rules, size)
    ensures Increasing(AllMarks(s, rules, size)) && forall p <- AllMarks(s, rules, size) :: s.cursor <= p < NPOS
    decreases rules
  {
    if rules != [] {
      MarksIncrease(Next(s, rules[0]), rules[1..], size);
      var rest := AllMarks(Next(s, rules[0]), rules[1..], size);
      assert forall i | 0 <= i < |rest| :: rest[i] in rest;
    }
  }

  lemma {:induction false} MarkIsReported(s: Scan, rules: seq<Rule>, size: nat, p: Position) returns (k: nat)
    requires size < NPOS - 2 && s.commentBegin <= s.cursor && CanRun(s, rules, size) && p in AllMarks(s, rules, size)
    ensures D.Reported(AllReports(s, rules, size), p, k)
    decreases rules
  {
    if p in Mark(s, rules[0]) {
      k := 0;
    } else {
      k := MarkIsReported(Next(s, rules[0]), rules[1..], size, p);
      k := k + |Reports(s, rules[0])|;
    }
  }

  // What the driver is told in any run is in order, disjoint, and within the text consumed.
  lemma {:induction false} SoundIsInOrder(s: Scan, log: seq<Event>, size: nat)
    requires Sound(s, log, size)
    ensures InOrder(log)
    ensures forall i | 0 <= i < |log| :: log[i].region.end <= s.cursor
    ensures forall i, j | 0 <= i < j < |log| :: log[i].region.end <= log[j].region.begin
  {
    if s.mode.Finished? {
      var front := log[..|log| - 1];
      TidyIsDisjoint(front, s.cursor);
      assert forall i | 0 <= i < |front| :: log[i] == front[i];
    } else {
      TidyIsDisjoint(log, s.Settled());
    }
  }

  lemma {:induction false} EveryRunIsSound(rules: seq<Rule>, size: nat)
    requires size < NPOS - 2 && CanRun(START, rules, size)
    ensures Sound(After(START, rules), AllReports(START, rules, size), size)
  {
    RunKeepsSound(START, [], rules, size);
    assert [] + AllReports(START, rules, size) == AllReports(START, rules, size);
  }

  // In every complete run, the comments reported are exactly the leading comments of the tokens,
  // put end to end: none is lost, and none belongs to two tokens.
  lemma {:induction false} EveryRunConservesComments(rules: seq<Rule>, size: nat)
    requires size < NPOS - 2 && CanRun(START, rules, size) && After(START, rules).mode.Finished?
    ensures InOrder(AllReports(START, rules, size))
    ensures AllLeading(AllReports(START, rules, size), |AllReports(START, rules, size)|)
         == CommentsOf(AllReports(START, rules, size))
  {
    EveryRunIsSound(rules, size);
    FinishedRunIsClosed(After(START, rules), AllReports(START, rules, size), size);
  }

  lemma {:induction false} FinishedRunIsClosed(s: Scan, log: seq<Event>, size: nat)
    requires Sound(s, log, size) && s.mode.Finished?
    ensures InOrder(log) && AllLeading(log, |log|) == CommentsOf(log)
  {
    SoundIsInOrder(s, log, size);
    CommentsConserved(log);
  }

  lemma {:induction false} RunIsInOrder(s: Scan, log: seq<Event>, rules: seq<Rule>, size: nat)
    requires Sound(s, log, size) && CanRun(s, rules, size)
    ensures InOrder(log + AllReports(s, rules, size))
  {
    RunKeepsSound(s, log, rules, size);
    SoundIsInOrder(After(s, rules), log + AllReports(s, rules, size), size);
  }

  // A token handed to the parser can be looked up from then on, and however the run goes on, the
  // answer stays the comments reported just before the token. The end of file counts as a token,
  // but not where it cuts off a bracketed comment.
  lemma {:induction false} TokenKeepsItsComments(s: Scan, log: seq<Event>, rules: seq<Rule>, size: nat)
    requires Sound(s, log, size) && CanRun(s, rules, size) && rules != [] && Yields(s, rules[0]).Some?
    requires !(rules[0].EndOfFile? && s.mode.BracketedComment?)
    ensures var all, k := log + AllReports(s, rules, size), |log| + |Reports(s, rules[0])| - 1;
            && InOrder(all) && D.Reported(all, Yields(s, rules[0]).value.begin, k)
            && all[k] == Separator(Yields(s, rules[0]).value)
            && Before(all, k) == Before(log, |log|) + JustClosed(s, rules[0])
  {
    RunIsInOrder(s, log, rules, size);
    TokenLookup(s, log, rules, size);
  }

  lemma {:induction false} TokenLookup(s: Scan, log: seq<Event>, rules: seq<Rule>, size: nat)
    requires size < NPOS - 2 && s.commentBegin <= s.cursor && CanRun(s, rules, size)
    requires rules != [] && Yields(s, rules[0]).Some? && !(rules[0].EndOfFile? && s.mode.BracketedComment?)
    ensures var all, k := log + AllReports(s, rules, size), |log| + |Reports(s, rules[0])| - 1;
            && D.Reported(all, Yields(s, rules[0]).value.begin, k)
            && all[k] == Separator(Yields(s, rules[0]).value)
            && Before(all, k) == Before(log, |log|) + JustClosed(s, rules[0])
  {
    TokenIsReportedFirst(s, rules, size);
    BeforeNext(log, AllReports(s, rules, size), |Reports(s, rules[0])| - 1);
  }

  // What leads a separator that is reported next, or next but for one comment.
  lemma {:induction false} BeforeNext(log: seq<Event>, more: seq<Event>, n: nat)
    requires n <= 1 && n < |more| && more[n].Separator? && (n == 1 ==> more[0].Comment?)
    ensures D.Reported(log + more, more[n].Begin(), |log| + n) && (log + more)[|log| + n] == more[n]
    ensures Before(log + more, |log| + n) == Before(log, |log|) + if n == 1 then [more[0].region] else []
  {
    BeforeIsStable(log, more, |log|);
    assert n == 1 ==> CommentAt(log + more, |log|) && (log + more)[|log|] == more[0];
  }

  // The comment that the end of file closes.
  function JustClosed(s: Scan, rule: Rule): seq<Region>
    requires s.commentBegin <= s.cursor < NPOS
  {
    if rule.EndOfFile? && s.mode.SimpleComment? then [Region(s.commentBegin, s.cursor)] else []
  }

  lemma {:induction false} TokenIsReportedFirst(s: Scan, rules: seq<Rule>, size: nat)
    requires size < NPOS - 2 && s.commentBegin <= s.cursor && CanRun(s, rules, size)
    requires rules != [] && Yields(s, rules[0]).Some?
    ensures var n := |Reports(s, rules[0])| - 1;
            && 0 <= n < |AllReports(s, rules, size)|
            && AllReports(s, rules, size)[n] == Separator(Region(s.cursor, s.cursor + rules[0].Length()))
            && (n > 0 ==> AllReports(s, rules, size)[0] == Reports(s, rules[0])[0])
  {
  }

  // How much of the text has been matched.
  function Consumed(rules: seq<Rule>): nat {
    if rules == [] then 0 else rules[0].Length() + Consumed(rules[1..])
  }

  // After any run the next token is the text just behind everything matched so far, and is reported
  // with that region; but for a bracketed comment cut off by the end of file it is the opening mark,
  // two bytes long.
  lemma {:induction false} TokenIsItsText(rules: seq<Rule>, rule: Rule, size: nat)
    requires size < NPOS - 2 && CanRun(START, rules, size) && Enabled(After(START, rules), rule, size)
    ensures var s, n := After(START, rules), Consumed(rules);
            && s.commentBegin <= s.cursor == n
            && (Yields(s, rule).Some? <==> rule.Token? || rule.Placeholder? || rule.EndOfFile?)
            && (Yields(s, rule).Some? && !(rule.EndOfFile? && s.mode.BracketedComment?) ==>
                  && Yields(s, rule).value == Region(n, n + rule.Length())
                  && Separator(Yields(s, rule).value) == Reports(s, rule)[|Reports(s, rule)| - 1])
            && (rule.EndOfFile? && s.mode.BracketedComment? ==>
                  && Yields(s, rule).value == Region(s.commentBegin, s.commentBegin + 2)
                  && Reports(s, rule) == [Separator(Region(n, n))])
  {
    EveryRunIsSound(rules, size);
    CursorIsConsumed(START, rules);
  }

  lemma {:induction false} CursorIsConsumed(s: Scan, rules: seq<Rule>)
    ensures After(s, rules).cursor == s.cursor + Consumed(rules)
    decreases rules
  {
    if rules != [] { CursorIsConsumed(Next(s, rules[0]), rules[1..]); }
  }

  // The token of the end of file can be looked up if and only if no bracketed comment is open there.
  lemma {:induction false} EndOfFileIsFound(s: Scan, log: seq<Event>, size: nat)
    requires Sound(s, log, size) && Enabled(s, EndOfFile, size)
    ensures (exists k :: D.Reported(log + Reports(s, EndOfFile), Yields(s, EndOfFile).value.begin, k))
       <==> !s.mode.BracketedComment?
  {
    var all, token := log + Reports(s, EndOfFile), Yields(s, EndOfFile).value;
    if s.mode.BracketedComment? {
      TidyBeginsBefore(log, s.commentBegin);
      assert forall k | 0 <= k < |log| :: all[k] == log[k];
    } else {
      assert D.Reported(all, token.begin, |all| - 1);
    }
  }

  lemma {:induction false} TidyBeginsBefore(log: seq<Event>, limit: nat)
    requires Tidy(log, limit)
    ensures forall k | 0 <= k < |log| :: log[k].Begin() < limit
  {
    if log != [] {
      var front := log[..|log| - 1];
      TidyBeginsBefore(front, log[|log| - 1].Begin());
      assert forall k | 0 <= k < |front| :: log[k] == front[k];
    }
  }

  // In every run, the i-th placeholder is a reported token, is found, and is numbered i.
  lemma {:induction false} EveryPlaceholderIsNumbered(rules: seq<Rule>, size: nat, i: nat, end: Position)
    requires size < NPOS - 2 && CanRun(START, rules, size) && i < |AllMarks(START, rules, size)| && end != NPOS
    ensures D.Ordinal(AllMarks(START, rules, size), Region(AllMarks(START, rules, size)[i], end)) == i + 1
    ensures exists k :: D.Reported(AllReports(START, rules, size), AllMarks(START, rules, size)[i], k)
  {
    var marks := AllMarks(START, rules, size);
    MarksIncrease(START, rules, size);
    assert marks[i] in marks && marks + [] == marks;
    D.OrdinalsNumberTheMarks(marks, []);
    var k := MarkIsReported(START, rules, size, marks[i]);
  }

  // ---- the scanner itself -----------------------------------------------------------------------

  class SqlScanner {
    var cursor: Position
    var yyleng: Position
    var commentBegin: Position
    var mode: Mode

    function State(): Scan
      reads this
    {
      Scan(mode, cursor, if mode.BracketedComment? || mode.SimpleComment? then commentBegin else 0)
    }

    // Within a document of `size` bytes, and holding a comment only while in one.
    ghost predicate Valid(size: nat)
      reads this
    {
      && State().commentBegin <= cursor <= size < NPOS - 2
      && if State().InComment() then commentBegin + 2 <= cursor else commentBegin == NPOS
    }

    constructor ()
      ensures State() == START && forall size: nat | size < NPOS - 2 :: Valid(size)
    {
      cursor, yyleng, commentBegin, mode := 0, 0, NPOS, Initial;
    }

    method UserAction()
      modifies this`cursor
      ensures cursor == Wrap(old(cursor) + yyleng)
    {
      cursor := Wrap(cursor + yyleng);
    }

    function Location(eof: bool): Region
      reads this
    {
      Region(Wrap(cursor - if eof then 0 else yyleng), cursor)
    }

    method EnterComment()
      modifies this`commentBegin
      ensures commentBegin == Wrap(cursor - yyleng)
    {
      commentBegin := Wrap(cursor - yyleng);
    }

    method ExitComment(inclusive: bool) returns (r: Region)
      modifies this`commentBegin
      ensures r == Region(old(commentBegin), if inclusive then cursor else Wrap(cursor - yyleng))
      ensures commentBegin == NPOS
    {
      r := Region(commentBegin, if inclusive then cursor else Wrap(cursor - yyleng));
      commentBegin := NPOS;
    }

    // One match of the lexer and the action of its rule: what the action reports to the driver, in
    // order, the placeholder it marks, and the token it returns to the parser.
    method Match(rule: Rule, ghost size: nat) returns (reports: seq<Event>, mark: Option<Region>, token: Option<Region>)
      requires Valid(size) && Enabled(State(), rule, size)
      modifies this
      ensures Valid(size) && State() == Next(old(State()), rule)
      ensures reports == Reports(old(State()), rule)
      ensures mark == if rule.Placeholder? then token else None
      ensures token == Yields(old(State()), rule)
    {
      reports, mark, token := [], None, None;
      if !rule.EndOfFile? {
        yyleng := rule.Length();
        UserAction();
      }
      match rule {
        case Space(_) | CommentText(_) =>
        case OpenBracketed =>
          mode := BracketedComment;
          EnterComment();
        case OpenSimple =>
          mode := SimpleComment;
          EnterComment();
        case CloseBracketed =>
          var comment := ExitComment(true);
          reports, mode := [Comment(comment)], Initial;
        case LineBreak(_) =>
          var comment := ExitComment(false);
          reports, mode := [Comment(comment)], Initial;
        case Token(_) =>
          reports, token := [Separator(Location(false))], Some(Location(false));
        case Placeholder =>
          mark := Some(Location(false));
          reports, token := [Separator(Location(false))], Some(Location(false));
        case EndOfFile =>
          if mode.BracketedComment? {
            var comment := ExitComment(true);
            SubCutsOutTheRange(comment, 0, 2);
            reports, token := [Separator(Location(true))], Some(comment.Sub(0, 2));
          } else if mode.SimpleComment? {
            var comment := ExitComment(true);
            reports, token := [Comment(comment), Separator(Location(true))], Some(Location(true));
          } else {
            reports, token := [Separator(Location(true))], Some(Location(true));
          }
          mode := Finished;
      }
    }
  }

  // ---- the scanner feeding the driver -------------------------------------------------------------

  // The driver's ordering precondition holds for the events one after the other.
  predicate Deliverable(log: seq<Event>, reports: seq<Event>, document: Option<string>)
    decreases reports
  {
    || reports == []
    || (D.Follows(log, reports[0].region, document) && Deliverable(log + [reports[0]], reports[1..], document))
  }

  lemma {:induction false} ReportsAreDeliverable(s: Scan, log: seq<Event>, rule: Rule, size: nat,
                                                 document: Option<string>)
    requires Sound(s, log, size) && Enabled(s, rule, size) && (document.Some? ==> |document.value| == size)
    ensures Deliverable(log, Reports(s, rule), document)
  {
    var reports := Reports(s, rule);
    if reports != [] {
      TidyFollows(log, s.Settled(), reports[0].region, document);
      if |reports| > 1 {
        TidyGrows(log, s.Settled(), reports[0]);
        TidyFollows(log + [reports[0]], s.cursor, reports[1].region, document);
        assert reports[1..][0] == reports[1] && reports[1..][1..] == [];
      } else {
        assert reports[1..] == [];
      }
    }
  }

  method DeliverOne(driver: D.SqlDriver, e: Event)
    requires driver.Valid() && D.Follows(driver.log, e.region, driver.document)
    modifies driver
    ensures driver.Valid() && driver.log == old(driver.log) + [e]
    ensures driver.placeholderMarks == old(driver.placeholderMarks) && driver.result == old(driver.result)
  {
    if e.Comment? { driver.AddComment(e.region); } else { driver.AddCommentSeparator(e.region); }
  }

  method Deliver(driver: D.SqlDriver, reports: seq<Event>)
    requires driver.Valid() && Deliverable(driver.log, reports, driver.document)
    modifies driver
    ensures driver.Valid() && driver.log == old(driver.log) + reports
    ensures driver.placeholderMarks == old(driver.placeholderMarks) && driver.result == old(driver.result)
    decreases reports
  {
    ghost var log := driver.log;
    if reports == [] {
      assert log + [] == log;
    } else {
      assert log + [reports[0]] + reports[1..] == log + reports;
      DeliverOne(driver, reports[0]);
      Deliver(driver, reports[1..]);
    }
  }

  method MarkAndDeliver(driver: D.SqlDriver, mark: Option<Region>, reports: seq<Event>)
    requires driver.Valid() && Deliverable(driver.log, reports, driver.document)
    requires mark.Some? ==> mark.value.IsValid()
    requires mark.Some? && driver.placeholderMarks != [] ==>
               driver.placeholderMarks[|driver.placeholderMarks| - 1] < mark.value.begin
    modifies driver
    ensures driver.Valid() && driver.log == old(driver.log) + reports
    ensures driver.placeholderMarks == old(driver.placeholderMarks) + if mark.Some? then [mark.value.begin] else []
    ensures driver.result == old(driver.result)
  {
    if mark.Some? { driver.AddPlaceholderMark(mark.value); }
    Deliver(driver, reports);
  }

  // The scanner and the driver agree at every point of a run.
  ghost predicate InStep(scanner: SqlScanner, driver: D.SqlDriver, size: nat)
    reads scanner, driver
  {
    && scanner.Valid(size) && driver.Valid()
    && (driver.document.Some? ==> |driver.document.value| == size)
    && Sound(scanner.State(), driver.log, size)
    && (driver.placeholderMarks != [] ==> driver.placeholderMarks[|driver.placeholderMarks| - 1] < scanner.cursor)
  }

  // One step of a run: the driver's preconditions always hold.
  method Step(scanner: SqlScanner, driver: D.SqlDriver, rule: Rule, ghost s: Scan, ghost size: nat)
    returns (token: Option<Region>)
    requires InStep(scanner, driver, size) && s == scanner.State() && Enabled(s, rule, size)
    modifies scanner, driver
    ensures InStep(scanner, driver, size) && scanner.State() == Next(s, rule)
    ensures driver.log == old(driver.log) + Reports(s, rule)
    ensures driver.placeholderMarks == old(driver.placeholderMarks) + Mark(s, rule)
    ensures driver.result == old(driver.result)
    ensures token == Yields(s, rule)
  {
    MatchKeepsSound(s, driver.log, rule, size);
    ReportsAreDeliverable(s, driver.log, rule, size, driver.document);
    var reports, mark;
    reports, mark, token := scanner.Match(rule, size);
    MarkAndDeliver(driver, mark, reports);
  }

  // A run of matches, as the generated parser draws them.
  method Run(scanner: SqlScanner, driver: D.SqlDriver, rules: seq<Rule>, ghost s: Scan, ghost size: nat)
    requires InStep(scanner, driver, size) && s == scanner.State() && CanRun(s, rules, size)
    modifies scanner, driver
    ensures InStep(scanner, driver, size) && scanner.State() == After(s, rules)
    ensures driver.log == old(driver.log) + AllReports(s, rules, size)
    ensures driver.placeholderMarks == old(driver.placeholderMarks) + AllMarks(s, rules, size)
    ensures driver.result == old(driver.result)
    decreases rules
  {
    ghost var log, marks := driver.log, driver.placeholderMarks;
    if rules == [] {
      assert log + [] == log && marks + [] == marks;
    } else {
      RunStep(s, rules, size, log, marks);
      var _ := Step(scanner, driver, rules[0], s, size);
      Run(scanner, driver, rules[1..], Next(s, rules[0]), size);
    }
  }
}
