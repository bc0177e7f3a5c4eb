/**
 The comment and placeholder index of `sql_driver`: a compressed, incrementally built index,
 queried by binary search, that answers as a scan of the full log of `CommentLog` would.
 Positions count bytes, so a character of `document` stands for one byte.
 */
module SqlDriver {
  import opened Options
  import opened Regions
  import opened Ast
  import opened Results
  import opened CommentLog

  // `std::lower_bound` over positions.
  method LowerBound(s: seq<Position>, key: Position) returns (first: nat)
    requires Increasing(s)
    ensures first <= |s|
    ensures forall i | 0 <= i < first :: s[i] < key
    ensures forall i | first <= i < |s| :: key <= s[i]
    ensures key in s <==> first < |s| && s[first] == key
  {
    first := 0;
    var count := |s|;
    while count > 0
      invariant 0 <= first && 0 <= count && first + count <= |s|
      invariant forall i | 0 <= i < first :: s[i] < key
      invariant forall i | first + count <= i < |s| :: key <= s[i]
    {
      var step := count / 2;
      if s[first + step] < key {
        first, count := first + step + 1, count - step - 1;
      } else {
        count := step;
      }
    }
  }

  ghost predicate BeginsIncrease(s: seq<Region>) { forall i, j | 0 <= i < j < |s| :: s[i].begin < s[j].begin }

  // `std::lower_bound` and `std::upper_bound` over regions, compared by their beginning.
  method LowerBoundByBegin(s: seq<Region>, key: Position) returns (first: nat)
    requires BeginsIncrease(s)
    ensures first <= |s|
    ensures forall i | 0 <= i < first :: s[i].begin < key
    ensures forall i | first <= i < |s| :: key <= s[i].begin
  {
    first := 0;
    var count := |s|;
    while count > 0
      invariant 0 <= first && 0 <= count && first + count <= |s|
      invariant forall i | 0 <= i < first :: s[i].begin < key
      invariant forall i | first + count <= i < |s| :: key <= s[i].begin
    {
      var step := count / 2;
      if s[first + step].begin < key {
        first, count := first + step + 1, count - step - 1;
      } else {
        count := step;
      }
    }
  }

  method UpperBoundByBegin(s: seq<Region>, key: Position) returns (first: nat)
    requires BeginsIncrease(s)
    ensures first <= |s|
    ensures forall i | 0 <= i < first :: s[i].begin <= key
    ensures forall i | first <= i < |s| :: key < s[i].begin
  {
    first := 0;
    var count := |s|;
    while count > 0
      invariant 0 <= first && 0 <= count && first + count <= |s|
      invariant forall i | 0 <= i < first :: s[i].begin <= key
      invariant forall i | first + count <= i < |s| :: key < s[i].begin
    {
      var step := count / 2;
      if key < s[first + step].begin {
        count := step;
      } else {
        first, count := first + step + 1, count - step - 1;
      }
    }
  }

  // The slice between the two bounds is the filtered list.
  lemma {:induction false} SliceIsInRange(s: seq<Region>, n: nat, lo: nat, hi: nat, from: int, to: int)
    requires lo <= hi <= n <= |s|
    requires forall i | 0 <= i < n :: (from <= s[i].begin <= to <==> lo <= i < hi)
    ensures InRange(s[..n], from, to) == s[lo..hi]
  {
    if n > 0 {
      InRangeStep(s, n, from, to);
      if hi < n {
        SliceIsInRange(s, n - 1, lo, hi, from, to);
      } else if lo < n {
        SliceIsInRange(s, n - 1, lo, n - 1, from, to);
        assert s[lo..n] == s[lo..n - 1] + [s[n - 1]];
      } else {
        SliceIsInRange(s, n - 1, n - 1, n - 1, from, to);
      }
    }
  }

  lemma {:induction false} InRangeStep(s: seq<Region>, n: nat, from: int, to: int)
    requires 0 < n <= |s|
    ensures InRange(s[..n], from, to)
         == InRange(s[..n - 1], from, to) + if from <= s[n - 1].begin <= to then [s[n - 1]] else []
  {
    assert s[..n][..n - 1] == s[..n - 1];
  }

  lemma {:induction false} NoneInRange(s: seq<Region>, from: int, to: int)
    requires forall i | 0 <= i < |s| :: !(from <= s[i].begin <= to)
    ensures InRange(s, from, to) == []
  {
    if s != [] { NoneInRange(s[..|s| - 1], from, to); }
  }

  // The two searches of `comments_in_range` over a sorted list.
  method SearchRange(s: seq<Region>, from: Position, to: Position) returns (r: seq<Region>)
    requires BeginsIncrease(s)
    ensures r == InRange(s, from, to)
    ensures forall c <- r :: c in s
  {
    if from > to {
      NoneInRange(s, from, to);
      return [];
    }
    var lower := LowerBoundByBegin(s, from);
    if lower == |s| {
      NoneInRange(s, from, to);
      return [];
    }
    var upper := UpperBoundByBegin(s, to);
    if upper <= lower {
      NoneInRange(s, from, to);
      return [];
    }
    SliceIsInRange(s, |s|, lower, upper, from, to);
    assert s[..|s|] == s;
    return s[lower..upper];
  }

  // The last separator reported, or the invalid region.
  function LastSeparator(log: seq<Event>): Region {
    if log == [] then INVALID
    else if log[|log| - 1].Separator? then log[|log| - 1].region
    else LastSeparator(log[..|log| - 1])
  }

  predicate EndsBy(log: seq<Event>, limit: nat) {
    log == [] || (EndsBy(log[..|log| - 1], limit) && log[|log| - 1].region.end <= limit)
  }

  lemma {:induction false} EndsByHolds(log: seq<Event>, limit: nat)
    ensures EndsBy(log, limit) <==> forall i | 0 <= i < |log| :: log[i].region.end <= limit
  {
    if log != [] {
      var front := log[..|log| - 1];
      EndsByHolds(front, limit);
      assert forall i | 0 <= i < |front| :: log[i] == front[i];
    }
  }

  predicate InDocument(log: seq<Event>, document: Option<string>) {
    document.Some? ==> |document.value| <= NPOS && EndsBy(log, |document.value|)
  }

  // The order in which the driver must be told about regions.
  predicate Follows(log: seq<Event>, r: Region, document: Option<string>) {
    && WellFormed(r)
    && (log != [] ==> log[|log| - 1].Begin() < r.begin)
    && (document.Some? ==> r.end <= |document.value|)
  }

  // What one more event does to everything the driver keeps but the compressed index.
  lemma {:induction false} LogGrows(log: seq<Event>, e: Event, more: seq<Event>, document: Option<string>)
    requires InOrder(log) && InDocument(log, document) && Follows(log, e.region, document) && more == log + [e]
    ensures InOrder(more) && InDocument(more, document)
    ensures CommentsOf(more) == CommentsOf(log) + CommentsIn(e)
    ensures LastSeparator(more) == if e.Separator? then e.region else LastSeparator(log)
    ensures CommentAt(more, |more| - 1) == e.Comment?
  {
    assert more[..|log|] == log;
    CommentsKeep(log, [e], 0, |log|);
  }

  // Where the next run of comments opens.
  function NextOpening(log: seq<Event>): Position {
    if LastSeparator(log).IsValid() then LastSeparator(log).begin else 0
  }

  // The entry a comment adds to the index, as the driver decides it from its last entry.
  lemma {:induction false} CommentEntry(log: seq<Event>, r: Region, more: seq<Event>, s: seq<Position>)
    requires InOrder(log) && more == log + [Comment(r)] && s == Edges(log, |log|)
    ensures Edges(more, |more|)
         == if !CommentAt(log, |log| - 1) && (s == [] || s[|s| - 1] < NextOpening(log)) then s + [NextOpening(log)]
            else s
  {
    InOrderIsOrdered(log);
    EdgesAddComment(log, r);
    if SeparatorAt(log, |log| - 1) {
      LastEdgeAtSeparator(log);
    } else if log != [] {
      assert CommentAt(log, |log| - 1);
    }
  }

  lemma {:induction false} SeparatorEntry(log: seq<Event>, r: Region, more: seq<Event>, s: seq<Position>)
    requires InOrder(log) && (log != [] ==> log[|log| - 1].Begin() < r.begin)
    requires more == log + [Separator(r)] && s == Edges(log, |log|)
    ensures CommentAt(log, |log| - 1) ==> s != [] && s[|s| - 1] < r.begin
    ensures Edges(more, |more|) == if CommentAt(log, |log| - 1) then s + [r.begin] else s
  {
    InOrderIsOrdered(log);
    EdgesAddSeparator(log, r);
    if CommentAt(log, |log| - 1) {
      LastEdgeWhilePending(log);
      var j := GapStart(log, |log|);
      assert j == |log| - 1 || log[j].Begin() < log[|log| - 1].Begin();
    }
  }

  // The separator event that begins at p, if one has been reported.
  ghost predicate Reported(log: seq<Event>, p: Position, k: int) { SeparatorAt(log, k) && log[k].Begin() == p }

  // What `following_comments` answers for the run that starts at event k: without a document,
  // a run that no separator has closed yet is not found.
  function Following(log: seq<Event>, k: nat, document: Option<string>): seq<Region>
    requires k <= |log|
  {
    if document.None? && GapEnd(log, k) == |log| then [] else From(log, k)
  }

  // The lookup of what follows an edge, when that edge is entry `at` and the next one is `limit`.
  lemma {:induction false} FollowingLookup(log: seq<Event>, document: Option<string>, at: nat, limit: int)
    requires InOrder(log) && InDocument(log, document) && at < |Edges(log, |log|)|
    requires limit == if at + 1 < |Edges(log, |log|)| then Edges(log, |log|)[at + 1]
                      else if document.Some? then |document.value|
                      else NPOS
    ensures forall k | OpensAt(log, Edges(log, |log|)[at], k) ::
              Following(log, k, document)
              == if at + 1 == |Edges(log, |log|)| && document.None? then []
                 else InRange(CommentsOf(log), Edges(log, |log|)[at], limit)
    ensures exists k :: OpensAt(log, Edges(log, |log|)[at], k)
  {
    var key := Edges(log, |log|)[at];
    InOrderIsOrdered(log);
    if document.Some? { EndsByHolds(log, |document.value|); }
    forall k | OpensAt(log, key, k)
      ensures Following(log, k, document)
           == if at + 1 == |Edges(log, |log|)| && document.None? then [] else InRange(CommentsOf(log), key, limit)
    {
      FromEdge(log, k, at, limit);
    }
    EdgeOpens(log, key) by { EdgeList(log); assert key in Edges(log, |log|); }
  }

  lemma {:induction false} EdgeOpens(log: seq<Event>, p: Position)
    requires IsEdge(log, p)
    ensures exists k :: OpensAt(log, p, k)
  {
    if p == 0 && CommentAt(log, 0) {
      assert OpensAt(log, p, 0);
    } else {
      var i :| TouchesComment(log, i) && log[i].Begin() == p;
      assert OpensAt(log, p, i + 1);
    }
  }

  // What follows a token is what leads the next one. While no next one has been reported, the comments
  // so far are found exactly when there is a document to bound them.
  lemma {:induction false} FollowingMeetsLeading(log: seq<Event>, k: nat, document: Option<string>)
    requires SeparatorAt(log, k)
    ensures GapEnd(log, k + 1) < |log| ==> Following(log, k + 1, document) == Before(log, GapEnd(log, k + 1))
    ensures GapEnd(log, k + 1) == |log| && CommentAt(log, k + 1) ==>
              (Following(log, k + 1, document) == Before(log, |log|) <==> document.Some?)
  {
    var e := GapEnd(log, k + 1);
    GapStartIs(log, k + 1, e);
    if e == |log| && CommentAt(log, k + 1) { RunIsNonempty(log, k + 1, e); }
  }

  lemma {:induction false} RunIsNonempty(log: seq<Event>, a: nat, b: nat)
    requires a < b <= |log| && forall i | a <= i < b :: CommentAt(log, i)
    ensures Comments(log, a, b) != []
  {
    assert CommentAt(log, b - 1);
  }

  const DESCRIPTION_PREFIX := "/**"
  const DESCRIPTION_SUFFIX := "*/"

  // A comment that documents the definition after it.
  predicate IsDescription(text: string, c: Region) {
    && c.begin + |DESCRIPTION_PREFIX| + |DESCRIPTION_SUFFIX| <= c.end <= |text|
    && text[c.begin..c.begin + |DESCRIPTION_PREFIX|] == DESCRIPTION_PREFIX
    && text[c.end - |DESCRIPTION_SUFFIX|..c.end] == DESCRIPTION_SUFFIX
  }

  // The description nearest the end of a list of comments, or the invalid region.
  function LastDescription(text: string, cs: seq<Region>): Region {
    if cs == [] then INVALID
    else if IsDescription(text, cs[|cs| - 1]) then cs[|cs| - 1]
    else LastDescription(text, cs[..|cs| - 1])
  }

  // `r` is the description after which no other comes; it is the invalid region if and only if there is none.
  ghost predicate IsNearestDescription(text: string, cs: seq<Region>, r: Region) {
    && (r.IsValid() <==> exists c <- cs :: IsDescription(text, c))
    && (!r.IsValid() ==> r == INVALID)
    && (r.IsValid() ==> exists i | 0 <= i < |cs| :: cs[i] == r && EndsDescriptions(text, cs, i))
  }

  ghost predicate EndsDescriptions(text: string, cs: seq<Region>, i: nat)
    requires i < |cs|
  {
    IsDescription(text, cs[i]) && forall j | i < j < |cs| :: !IsDescription(text, cs[j])
  }

  lemma {:induction false} LastDescriptionIsNearest(text: string, cs: seq<Region>)
    requires forall c <- cs :: c.IsValid()
    ensures IsNearestDescription(text, cs, LastDescription(text, cs))
  {
    if cs != [] {
      var n := |cs| - 1;
      var front := cs[..n];
      assert cs == front + [cs[n]];
      LastDescriptionIsNearest(text, front);
      if IsDescription(text, cs[n]) {
        assert cs[n] in cs && EndsDescriptions(text, cs, n);
      } else if LastDescription(text, front).IsValid() {
        var i :| 0 <= i < n && front[i] == LastDescription(text, front) && EndsDescriptions(text, front, i);
        assert cs[i] == front[i];
        assert forall j | i < j < |cs| :: j == n || cs[j] == front[j];
        assert EndsDescriptions(text, cs, i);
      }
    }
  }

  // The reverse `std::find_if` over the leading comments.
  method FindDescription(doc: string, found: seq<Region>) returns (r: Region)
    requires |doc| <= NPOS && forall c <- found :: WellFormed(c) && c.end <= |doc|
    ensures r == LastDescription(doc, found) && IsNearestDescription(doc, found, r)
  {
    LastDescriptionIsNearest(doc, found);
    var at := |found|;
    assert found[..at] == found;
    while at > 0
      invariant 0 <= at <= |found|
      invariant LastDescription(doc, found) == LastDescription(doc, found[..at])
    {
      at := at - 1;
      var comment := found[at];
      assert found[..at + 1][..at] == found[..at];
      assert comment in found;
      if comment.Size() < |DESCRIPTION_PREFIX| + |DESCRIPTION_SUFFIX| { continue; }
      if doc[comment.begin..comment.begin + |DESCRIPTION_PREFIX|] != DESCRIPTION_PREFIX { continue; }
      if doc[comment.end - |DESCRIPTION_SUFFIX|..comment.end] != DESCRIPTION_SUFFIX { continue; }
      return comment;
    }
    return INVALID;
  }

  // Every recorded comment lies in the document.
  lemma {:induction false} CommentsInDocument(log: seq<Event>, n: nat, document: Option<string>)
    requires Ordered(log) && n <= |log|
    requires document.Some? ==> forall i | 0 <= i < |log| :: log[i].region.end <= |document.value|
    ensures forall c <- Comments(log, 0, n) :: WellFormed(c) && (document.Some? ==> c.end <= |document.value|)
  {
    if n > 0 { CommentsInDocument(log, n - 1, document); }
  }

  // The 1-origin ordinal of a placeholder: how many marks begin at or before it.
  function MarksUpTo(marks: seq<Position>, key: Position): nat {
    if marks == [] then 0
    else MarksUpTo(marks[..|marks| - 1], key) + if marks[|marks| - 1] <= key then 1 else 0
  }

  function Ordinal(marks: seq<Position>, token: Region): nat {
    if token.IsValid() && token.begin in marks then MarksUpTo(marks, token.begin) else 0
  }

  lemma {:induction false} MarksUpToSplit(marks: seq<Position>, key: Position, i: nat)
    requires i <= |marks| && (forall j | 0 <= j < |marks| :: marks[j] <= key <==> j < i)
    ensures MarksUpTo(marks, key) == i
  {
    if marks != [] { MarksUpToSplit(marks[..|marks| - 1], key, if i < |marks| then i else i - 1); }
  }

  // Ordinals number the marks 1..n in document order, every other token gets 0, and an ordinal
  // once assigned survives every later mark.
  lemma {:induction false} OrdinalsNumberTheMarks(marks: seq<Position>, later: seq<Position>)
    requires Increasing(marks + later) && NPOS !in marks
    ensures forall i, end: Position | 0 <= i < |marks| && end != NPOS :: Ordinal(marks, Region(marks[i], end)) == i + 1
    ensures forall t: Region :: Ordinal(marks, t) == 0 <==> !t.IsValid() || t.begin !in marks
    ensures forall t: Region | Ordinal(marks, t) != 0 :: Ordinal(marks + later, t) == Ordinal(marks, t) <= |marks|
  {
    var all := marks + later;
    forall i | 0 <= i < |marks| ensures MarksUpTo(marks, marks[i]) == i + 1 == MarksUpTo(all, marks[i]) {
      assert all[i] == marks[i];
      assert forall j | 0 <= j < |marks| :: all[j] == marks[j];
      MarksUpToSplit(marks, marks[i], i + 1);
      MarksUpToSplit(all, marks[i], i + 1);
    }
    forall t: Region | t.begin in marks
      ensures t.begin in all && 1 <= MarksUpTo(marks, t.begin) == MarksUpTo(all, t.begin) <= |marks|
    {
      var i :| 0 <= i < |marks| && marks[i] == t.begin;
      assert all[i] == t.begin;
    }
  }

  // A blank after the last semicolon parses as an empty statement, which is dropped.
  function WithoutTrailingBlank(statements: seq<Statement>): seq<Statement> {
    if statements != [] && statements[|statements| - 1].EmptyStatement? then statements[..|statements| - 1]
    else statements
  }

  // Everything reported is published in order, but for one last blank statement.
  lemma {:induction false} OnlyABlankIsDropped(ss: seq<Statement>, s: Statement)
    ensures WithoutTrailingBlank([]) == []
    ensures WithoutTrailingBlank(ss + [s]) == if s.EmptyStatement? then ss else ss + [s]
  {
    assert (ss + [s])[..|ss|] == ss;
  }

  class SqlDriver {
    const document: Option<string>
    var comments: seq<Region>
    var commentSeparators: seq<Position>
    var sawComments: bool
    var lastCommentSeparator: Region
    var placeholderMarks: seq<Position>
    var enableDescriptionComments: bool
    var result: ParserResult

    // Everything reported so far.
    ghost var log: seq<Event>

    ghost predicate Valid()
      reads this
    {
      && InOrder(log) && InDocument(log, document)
      && comments == CommentsOf(log)
      && commentSeparators == Edges(log, |log|)
      && sawComments == CommentAt(log, |log| - 1)
      && lastCommentSeparator == LastSeparator(log)
      && Increasing(placeholderMarks) && NPOS !in placeholderMarks
    }

    constructor (document: Option<string>)
      requires document.Some? ==> |document.value| <= NPOS
      ensures Valid() && log == [] && this.document == document && placeholderMarks == [] && enableDescriptionComments
      ensures result == NO_RESULT
    {
      this.document := document;
      comments, commentSeparators, sawComments := [], [], false;
      lastCommentSeparator, placeholderMarks, enableDescriptionComments := INVALID, [], true;
      result := NO_RESULT;
      log := [];
    }

    method AddComment(location: Region)
      requires Valid() && Follows(log, location, document)
      modifies this
      ensures Valid() && log == old(log) + [Comment(location)]
      ensures placeholderMarks == old(placeholderMarks) && enableDescriptionComments == old(enableDescriptionComments)
      ensures result == old(result)
    {
      ghost var more := log + [Comment(location)];
      CommentEntry(log, location, more, commentSeparators);
      LogGrows(log, Comment(location), more, document);
      if !sawComments {
        var separator := if lastCommentSeparator.IsValid() then lastCommentSeparator.begin else 0;
        if commentSeparators == [] || commentSeparators[|commentSeparators| - 1] < separator {
          commentSeparators := commentSeparators + [separator];
        }
        sawComments := true;
      }
      comments := comments + [location];
      log := more;
    }

    method AddCommentSeparator(location: Region)
      requires Valid() && Follows(log, location, document)
      modifies this
      ensures Valid() && log == old(log) + [Separator(location)]
      ensures placeholderMarks == old(placeholderMarks) && enableDescriptionComments == old(enableDescriptionComments)
      ensures result == old(result)
    {
      ghost var more := log + [Separator(location)];
      SeparatorEntry(log, location, more, commentSeparators);
      LogGrows(log, Separator(location), more, document);
      if sawComments {
        var separator := location.begin;
        if commentSeparators[|commentSeparators| - 1] < separator {
          commentSeparators := commentSeparators + [separator];
        }
        sawComments := false;
      }
      lastCommentSeparator := location;
      log := more;
    }

    method AddPlaceholderMark(token: Region)
      requires Valid()
      requires token.IsValid() && placeholderMarks != [] ==> placeholderMarks[|placeholderMarks| - 1] < token.begin
      modifies this`placeholderMarks
      ensures Valid()
      ensures placeholderMarks == old(placeholderMarks) + if token.IsValid() then [token.begin] else []
    {
      if !token.IsValid() { return; }
      placeholderMarks := placeholderMarks + [token.begin];
    }

    method FindPlaceholderMark(token: Region) returns (ordinal: nat)
      requires Valid()
      ensures ordinal == Ordinal(placeholderMarks, token)
    {
      if !token.IsValid() { return 0; }
      var key := token.begin;
      var at := LowerBound(placeholderMarks, key);
      if at == |placeholderMarks| || placeholderMarks[at] != key { return 0; }
      MarksUpToSplit(placeholderMarks, key, at + 1);
      return at + 1;
    }

    method CommentsInRange(from: Position, to: Position) returns (r: seq<Region>)
      requires Valid()
      ensures r == InRange(comments, from, to)
      ensures forall c :: c in r <==> c in comments && from <= c.begin <= to
      ensures BeginsIncrease(r)
    {
      InOrderIsOrdered(log);
      CommentsInOrder(log, |log|);
      InRangeIsExact(comments, from, to);
      r := SearchRange(comments, from, to);
    }

    // A reported token gets exactly the comments between it and the token before; any other region gets none.
    method LeadingComments(token: Region) returns (r: seq<Region>)
      requires Valid()
      ensures forall k | Reported(log, token.begin, k) && token.IsValid() :: r == Before(log, k)
      ensures (forall k :: !Reported(log, token.begin, k)) || !token.IsValid() ==> r == []
      ensures forall c <- r :: c in comments
    {
      if !token.IsValid() { return []; }
      InOrderIsOrdered(log);
      EdgeList(log);
      var key := token.begin;
      var at := LowerBound(commentSeparators, key);
      if at == |commentSeparators| || commentSeparators[at] != key {
        forall k | Reported(log, key, k) ensures Before(log, k) == [] { BeforeNonEdge(log, k); }
        return [];
      }
      forall k | Reported(log, key, k) ensures at == 0 ==> Before(log, k) == [] { BeforeEdge(log, k, at); }
      if at == 0 { return []; }
      assert exists k :: Reported(log, key, k) by {
        assert IsEdge(log, key) && commentSeparators[0] < key;
        var i :| TouchesComment(log, i) && log[i].Begin() == key;
        assert Reported(log, key, i);
      }
      forall k | Reported(log, key, k) ensures Before(log, k) == InRange(comments, commentSeparators[at - 1], key) {
        BeforeEdge(log, k, at);
      }
      r := CommentsInRange(commentSeparators[at - 1], commentSeparators[at]);
    }

    // A reported token gets exactly the comments between it and the next token. The document
    // start counts as one when comments come first.
    method FollowingComments(token: Region) returns (r: seq<Region>)
      requires Valid()
      ensures forall k | Reported(log, token.begin, k) && token.IsValid() :: r == Following(log, k + 1, document)
      ensures token.IsValid() && token.begin == 0 && CommentAt(log, 0) ==> r == Following(log, 0, document)
      ensures (forall k :: !OpensAt(log, token.begin, k)) || !token.IsValid() ==> r == []
    {
      if !token.IsValid() { return []; }
      InOrderIsOrdered(log);
      EdgeList(log);
      var key := token.begin;
      var at := LowerBound(commentSeparators, key);
      if at == |commentSeparators| || commentSeparators[at] != key {
        assert !IsEdge(log, key);
        forall k | Reported(log, key, k) ensures From(log, k + 1) == [] { BeforeNonEdge(log, k); }
        return [];
      }
      var next := at + 1;
      var limit: Position :=
        if next < |commentSeparators| then commentSeparators[next]
        else if document.Some? then |document.value|
        else NPOS;
      FollowingLookup(log, document, at, limit);
      assert forall k | Reported(log, key, k) :: OpensAt(log, key, k + 1);
      if next == |commentSeparators| {
        if document.None? { return []; }
        r := CommentsInRange(commentSeparators[at], |document.value|);
        return;
      }
      r := CommentsInRange(commentSeparators[at], commentSeparators[next]);
    }

    // The nearest description before a reported token, among the comments after the token before it.
    method LeadingDescriptionComment(token: Region) returns (r: Region)
      requires Valid()
      ensures token.IsValid() && enableDescriptionComments && document.Some? ==>
                forall k | Reported(log, token.begin, k) :: IsNearestDescription(document.value, Before(log, k), r)
      ensures !enableDescriptionComments || document.None? || !token.IsValid() ==> r == INVALID
      ensures (forall k :: !Reported(log, token.begin, k)) ==> r == INVALID
    {
      if !enableDescriptionComments { return INVALID; }
      var found := LeadingComments(token);
      if found == [] { return INVALID; }
      if document.None? { return INVALID; }
      InOrderIsOrdered(log);
      EndsByHolds(log, |document.value|);
      CommentsInDocument(log, |log|, document);
      r := FindDescription(document.value, found);
    }

    // The comments move into the compilation unit: lookups end here.
    method Success(statements: seq<Statement>)
      modifies this`comments, this`result
      ensures result == old(result).(value := Some(CompilationUnit(WithoutTrailingBlank(statements), old(comments))))
      ensures statements == [] ==> result.value.value.statements == []
      ensures statements != [] ==>
                var n := |statements| - 1;
                result.value.value.statements
                == statements[..n] + if statements[n].EmptyStatement? then [] else [statements[n]]
      ensures comments == []
    {
      var kept := statements;
      if kept != [] {
        if kept[|kept| - 1].EmptyStatement? { kept := kept[..|kept| - 1]; }
      }
      result := result.(value := Some(CompilationUnit(kept, comments)));
      comments := [];
    }

    method Error(code: Code, location: Region, reason: Reason)
      modifies this`result
      ensures result == Failed(Diagnostic(code, reason, location))
    {
      result := Failed(Diagnostic(code, reason, location));
    }
  }
}
