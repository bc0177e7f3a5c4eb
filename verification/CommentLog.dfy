/**
 The full log of what the scanner tells the driver about comments, and the questions asked of it,
 answered by scanning the log. This is the simple description that the driver's compressed index
 (`SqlDriver`) must agree with.
 */
module CommentLog {
  import opened Regions

  // A `Separator` is one call to `on_token`: a token, or the end of file.
  datatype Event = Comment(region: Region) | Separator(region: Region) {
    function Begin(): Position { region.begin }
  }

  // What every reported region satisfies on its own.
  predicate WellFormed(r: Region) { r.IsValid() && r.begin <= r.end }

  // Events are reported in the order of the document, each beginning after the one before.
  predicate InOrder(log: seq<Event>) {
    log == [] ||
    var n := |log| - 1;
    InOrder(log[..n]) && WellFormed(log[n].region) && (n > 0 ==> log[n - 1].Begin() < log[n].Begin())
  }

  // The same, said of any two events.
  ghost predicate Ordered(log: seq<Event>) {
    && (forall i | 0 <= i < |log| :: WellFormed(log[i].region))
    && (forall i, j | 0 <= i < j < |log| :: log[i].Begin() < log[j].Begin())
  }

  lemma {:induction false} InOrderIsOrdered(log: seq<Event>)
    ensures InOrder(log) <==> Ordered(log)
  {
    if log != [] {
      var front := log[..|log| - 1];
      InOrderIsOrdered(front);
      assert forall i | 0 <= i < |front| :: log[i] == front[i];
      if InOrder(log) {
        forall i | 0 <= i < |front| ensures log[i].Begin() < log[|log| - 1].Begin() {
          assert i == |front| - 1 || front[i].Begin() < front[|front| - 1].Begin();
        }
      } else if Ordered(log) {
        assert Ordered(front);
      }
    }
  }

  function CommentsIn(e: Event): seq<Region> { if e.Comment? then [e.region] else [] }

  // The comments among events a..b, in order.
  function Comments(log: seq<Event>, a: nat, b: nat): seq<Region>
    requires a <= b <= |log|
  {
    if a == b then [] else Comments(log, a, b - 1) + CommentsIn(log[b - 1])
  }

  function CommentsOf(log: seq<Event>): seq<Region> { Comments(log, 0, |log|) }

  lemma {:induction false} CommentsAreEvents(log: seq<Event>, a: nat, b: nat)
    requires a <= b <= |log|
    ensures forall c <- Comments(log, a, b) :: Comment(c) in log
  {
    if a < b { CommentsAreEvents(log, a, b - 1); }
  }

  predicate CommentAt(log: seq<Event>, i: int) { 0 <= i < |log| && log[i].Comment? }

  predicate SeparatorAt(log: seq<Event>, i: int) { 0 <= i < |log| && log[i].Separator? }

  // The first event of the run of comments that ends just before event k.
  function GapStart(log: seq<Event>, k: nat): (j: nat)
    requires k <= |log|
    ensures j <= k && (forall i | j <= i < k :: CommentAt(log, i)) && !CommentAt(log, j - 1)
  {
    if CommentAt(log, k - 1) then GapStart(log, k - 1) else k
  }

  // The event just after the run of comments that starts at event k.
  function GapEnd(log: seq<Event>, k: nat): (j: nat)
    requires k <= |log|
    ensures k <= j <= |log| && (forall i | k <= i < j :: CommentAt(log, i)) && !CommentAt(log, j)
    decreases |log| - k
  {
    if CommentAt(log, k) then GapEnd(log, k + 1) else k
  }

  // The comments between separator k and the previous separator.
  function Before(log: seq<Event>, k: nat): seq<Region>
    requires k <= |log|
  {
    Comments(log, GapStart(log, k), k)
  }

  // The comments from event k to the next separator.
  function From(log: seq<Event>, k: nat): seq<Region>
    requires k <= |log|
  {
    Comments(log, k, GapEnd(log, k))
  }

  // ---- slices of the comment list -------------------------------------------------------------

  // What is reported later does not change what was reported before.
  lemma {:induction false} CommentsKeep(log: seq<Event>, more: seq<Event>, a: nat, b: nat)
    requires a <= b <= |log|
    ensures Comments(log + more, a, b) == Comments(log, a, b)
  {
    if a < b { CommentsKeep(log, more, a, b - 1); }
  }

  // Comments are listed in document order.
  lemma {:induction false} CommentsInOrder(log: seq<Event>, n: nat)
    requires Ordered(log) && n <= |log|
    ensures forall i, j | 0 <= i < j < |Comments(log, 0, n)| ::
              Comments(log, 0, n)[i].begin < Comments(log, 0, n)[j].begin
    ensures forall c <- Comments(log, 0, n) :: WellFormed(c) && c.begin <= log[n - 1].Begin()
  {
    if n > 0 {
      CommentsInOrder(log, n - 1);
      if n > 1 { assert log[n - 2].Begin() < log[n - 1].Begin(); }
    }
  }

  function InRange(cs: seq<Region>, from: int, to: int): seq<Region> {
    if cs == [] then []
    else
      var n := |cs| - 1;
      InRange(cs[..n], from, to) + if from <= cs[n].begin <= to then [cs[n]] else []
  }

  // Exactly the members that begin in the closed range, in the order they have.
  lemma {:induction false} InRangeIsExact(cs: seq<Region>, from: int, to: int)
    requires forall i, j | 0 <= i < j < |cs| :: cs[i].begin < cs[j].begin
    ensures forall c :: c in InRange(cs, from, to) <==> c in cs && from <= c.begin <= to
    ensures forall i, j | 0 <= i < j < |InRange(cs, from, to)| ::
              InRange(cs, from, to)[i].begin < InRange(cs, from, to)[j].begin
  {
    if cs != [] {
      var n := |cs| - 1;
      var front := InRange(cs[..n], from, to);
      InRangeIsExact(cs[..n], from, to);
      assert cs == cs[..n] + [cs[n]];
      forall i | 0 <= i < |front| ensures front[i].begin < cs[n].begin { assert front[i] in cs[..n]; }
    }
  }

  lemma {:induction false} InRangeSnoc(cs: seq<Region>, e: Event, from: int, to: int)
    ensures InRange(cs + CommentsIn(e), from, to)
         == InRange(cs, from, to) + if from <= e.Begin() <= to then CommentsIn(e) else []
  {
    if e.Comment? {
      assert (cs + [e.region])[..|cs|] == cs;
    } else {
      assert cs + CommentsIn(e) == cs;
    }
  }

  // If exactly the comments among events a..b begin in the range, the range holds just those.
  lemma {:induction false} InRangeIsSlice(log: seq<Event>, n: nat, a: nat, b: nat, from: int, to: int)
    requires a <= b <= n <= |log|
    requires forall i | 0 <= i < n && CommentAt(log, i) :: (from <= log[i].Begin() <= to <==> a <= i < b)
    ensures InRange(Comments(log, 0, n), from, to) == Comments(log, a, b)
  {
    if n > 0 {
      InRangeSnoc(Comments(log, 0, n - 1), log[n - 1], from, to);
      if b < n {
        InRangeIsSlice(log, n - 1, a, b, from, to);
      } else if a < n {
        InRangeIsSlice(log, n - 1, a, n - 1, from, to);
      } else {
        InRangeIsSlice(log, n - 1, n - 1, n - 1, from, to);
      }
    }
  }

  // ---- the edges of the gaps that hold comments -----------------------------------------------

  // Event i is a separator with a comment next to it.
  predicate TouchesComment(log: seq<Event>, i: int) {
    SeparatorAt(log, i) && (CommentAt(log, i - 1) || CommentAt(log, i + 1))
  }

  // The positions of such separators among the first n events, after the document start if the
  // log opens with a comment.
  function Edges(log: seq<Event>, n: nat): seq<Position>
    requires n <= |log|
  {
    if n == 0 then (if CommentAt(log, 0) then [0] else [])
    else Edges(log, n - 1) + if TouchesComment(log, n - 1) then [log[n - 1].Begin()] else []
  }

  predicate Increasing(s: seq<int>) { forall i, j | 0 <= i < j < |s| :: s[i] < s[j] }

  lemma {:induction false} EdgesIncreasing(log: seq<Event>, n: nat)
    requires Ordered(log) && n <= |log|
    ensures Increasing(Edges(log, n))
    ensures forall p <- Edges(log, n) :: if n == 0 then p == 0 && CommentAt(log, 0) else p <= log[n - 1].Begin()
  {
    if n > 0 {
      EdgesIncreasing(log, n - 1);
      var s := Edges(log, n - 1);
      forall i | 0 <= i < |s| ensures TouchesComment(log, n - 1) ==> s[i] < log[n - 1].Begin() {
        assert s[i] in s;
        if n > 1 { assert log[n - 2].Begin() < log[n - 1].Begin(); }
      }
    }
  }

  ghost predicate IsEdge(log: seq<Event>, p: Position) {
    (p == 0 && CommentAt(log, 0)) || exists i | TouchesComment(log, i) :: log[i].Begin() == p
  }

  lemma {:induction false} EdgesAreEdges(log: seq<Event>, n: nat)
    requires n <= |log|
    ensures forall p <- Edges(log, n) ::
              (p == 0 && CommentAt(log, 0)) || exists i | 0 <= i < n && TouchesComment(log, i) :: log[i].Begin() == p
    ensures CommentAt(log, 0) ==> 0 in Edges(log, n)
    ensures forall i | 0 <= i < n && TouchesComment(log, i) :: log[i].Begin() in Edges(log, n)
  {
    if n > 0 { EdgesAreEdges(log, n - 1); }
  }

  // The two facts about the index that lookups rely on.
  lemma {:induction false} EdgeList(log: seq<Event>)
    requires Ordered(log)
    ensures Increasing(Edges(log, |log|))
    ensures forall p: Position :: p in Edges(log, |log|) <==> IsEdge(log, p)
  {
    EdgesIncreasing(log, |log|);
    EdgesAreEdges(log, |log|);
  }

  // An edge lies at or before entry m - 1, or at or after entry m.
  lemma {:induction false} NoEdgeBetween(log: seq<Event>, m: nat, p: Position)
    requires Ordered(log) && m <= |Edges(log, |log|)| && IsEdge(log, p)
    requires m < |Edges(log, |log|)| ==> p < Edges(log, |log|)[m]
    ensures m > 0 && p <= Edges(log, |log|)[m - 1]
  {
    EdgeList(log);
    var s := Edges(log, |log|);
    var i :| 0 <= i < |s| && s[i] == p;
    assert i < m;
  }

  // ---- lookups --------------------------------------------------------------------------------

  lemma {:induction false} CommentRunTouches(log: seq<Event>, k: nat)
    requires k <= |log|
    ensures SeparatorAt(log, k) && GapStart(log, k) < k ==> TouchesComment(log, k)
    ensures k < GapEnd(log, k) && SeparatorAt(log, k - 1) ==> TouchesComment(log, k - 1)
    ensures GapStart(log, k) < k && GapStart(log, k) > 0 ==> TouchesComment(log, GapStart(log, k) - 1)
    ensures k < GapEnd(log, k) < |log| ==> TouchesComment(log, GapEnd(log, k))
  {
    if GapStart(log, k) < k { assert CommentAt(log, k - 1); assert CommentAt(log, GapStart(log, k)); }
    if k < GapEnd(log, k) { assert CommentAt(log, k); assert CommentAt(log, GapEnd(log, k) - 1); }
  }

  lemma {:induction false} BeforeNonEdge(log: seq<Event>, k: nat)
    requires Ordered(log) && SeparatorAt(log, k) && !IsEdge(log, log[k].Begin())
    ensures Before(log, k) == [] && From(log, k + 1) == []
  {
    CommentRunTouches(log, k);
    CommentRunTouches(log, k + 1);
  }

  // The edge that opens the gap before event k; every edge before event k is at or before it.
  function OpeningEdge(log: seq<Event>, k: nat): Position
    requires k <= |log|
  {
    if GapStart(log, k) == 0 then 0 else log[GapStart(log, k) - 1].Begin()
  }

  lemma {:induction false} OpeningEdgeIsEdge(log: seq<Event>, k: nat)
    requires Ordered(log) && k <= |log| && GapStart(log, k) < k
    ensures IsEdge(log, OpeningEdge(log, k))
    ensures OpeningEdge(log, k) <= log[GapStart(log, k)].Begin()
    ensures GapStart(log, k) > 0 ==> OpeningEdge(log, k) < log[GapStart(log, k)].Begin()
  {
    CommentRunTouches(log, k);
    assert CommentAt(log, GapStart(log, k));
  }

  lemma {:induction false} OpeningEdgeIsLast(log: seq<Event>, k: nat, q: Position)
    requires Ordered(log) && k <= |log| && GapStart(log, k) < k
    requires IsEdge(log, q) && (k < |log| ==> q < log[k].Begin())
    ensures q <= OpeningEdge(log, k)
  {
    if q != 0 {
      var i :| TouchesComment(log, i) && log[i].Begin() == q;
      SeparatorOpensLater(log, k, i);
    }
  }

  lemma {:induction false} SeparatorOpensLater(log: seq<Event>, k: nat, i: nat)
    requires Ordered(log) && k <= |log| && GapStart(log, k) < k && SeparatorAt(log, i)
    requires k < |log| ==> log[i].Begin() < log[k].Begin()
    ensures log[i].Begin() <= OpeningEdge(log, k)
  {
    assert i < k;
    assert i < GapStart(log, k) by { assert !CommentAt(log, i); }
  }

  // The comments before a recorded separator are those between it and the entry before it.
  lemma {:induction false} BeforeEdge(log: seq<Event>, k: nat, m: nat)
    requires Ordered(log) && SeparatorAt(log, k)
    requires m < |Edges(log, |log|)| && Edges(log, |log|)[m] == log[k].Begin()
    ensures m == 0 ==> Before(log, k) == []
    ensures m > 0 ==> InRange(CommentsOf(log), Edges(log, |log|)[m - 1], log[k].Begin()) == Before(log, k)
  {
    if GapStart(log, k) < k {
      BeforeRun(log, k, m);
    } else if m > 0 {
      forall c | CommentAt(log, c) ensures !(Edges(log, |log|)[m - 1] <= log[c].Begin() <= log[k].Begin()) {
        if c < k { EdgeFollowsComment(log, k, m, c); }
      }
      InRangeIsSlice(log, |log|, k, k, Edges(log, |log|)[m - 1], log[k].Begin());
    }
  }

  lemma {:induction false} BeforeRun(log: seq<Event>, k: nat, m: nat)
    requires Ordered(log) && SeparatorAt(log, k) && GapStart(log, k) < k
    requires m < |Edges(log, |log|)| && Edges(log, |log|)[m] == log[k].Begin()
    ensures m > 0 && InRange(CommentsOf(log), Edges(log, |log|)[m - 1], log[k].Begin()) == Before(log, k)
  {
    var p := OpeningEdge(log, k);
    OpeningEdgeIsEdge(log, k);
    NoEdgeBetween(log, m, p);
    var q := Edges(log, |log|)[m - 1];
    assert IsEdge(log, q) && q < log[k].Begin() by { EdgeList(log); assert q in Edges(log, |log|); }
    OpeningEdgeIsLast(log, k, q);
    InRangeIsSlice(log, |log|, GapStart(log, k), k, p, log[k].Begin());
  }

  // Between a comment and a later separator with no comments of its own lies another edge.
  lemma {:induction false} EdgeFollowsComment(log: seq<Event>, k: nat, m: nat, c: nat)
    requires Ordered(log) && SeparatorAt(log, k) && GapStart(log, k) == k && CommentAt(log, c) && c < k
    requires m < |Edges(log, |log|)| && Edges(log, |log|)[m] == log[k].Begin()
    ensures m > 0 && log[c].Begin() < Edges(log, |log|)[m - 1]
  {
    var e := GapEnd(log, c);
    CommentRunTouches(log, c);
    assert c < e < k by { assert CommentAt(log, c) && !CommentAt(log, k) && !CommentAt(log, k - 1); }
    assert IsEdge(log, log[e].Begin());
    NoEdgeBetween(log, m, log[e].Begin());
  }

  // The event at which the run of comments after an edge starts.
  predicate OpensAt(log: seq<Event>, p: Position, k: int) {
    && 0 <= k <= |log|
    && if k == 0 then p == 0 && CommentAt(log, 0) else SeparatorAt(log, k - 1) && log[k - 1].Begin() == p
  }

  // A comment after the run at k belongs to a later run, which a separator opens.
  lemma {:induction false} LaterRunOpens(log: seq<Event>, k: nat, c: nat) returns (q: nat)
    requires k <= |log| && CommentAt(log, c) && GapEnd(log, k) <= c
    ensures GapEnd(log, k) <= q < c && TouchesComment(log, q)
  {
    var j := GapStart(log, c);
    assert GapEnd(log, k) < j;
    assert CommentAt(log, j);
    q := j - 1;
  }

  // The entry after an edge lies beyond the run of comments that the edge opens.
  lemma {:induction false} NextEdgeIsBeyond(log: seq<Event>, k: nat, m: nat)
    requires Ordered(log) && m + 1 < |Edges(log, |log|)| && OpensAt(log, Edges(log, |log|)[m], k)
    ensures GapEnd(log, k) < |log| && log[GapEnd(log, k)].Begin() <= Edges(log, |log|)[m + 1]
  {
    var s := Edges(log, |log|);
    EdgeList(log);
    assert s[m + 1] in s && s[m] < s[m + 1];
    var i :| TouchesComment(log, i) && log[i].Begin() == s[m + 1];
    assert k <= i;
    assert !CommentAt(log, i);
  }

  // The comments after a recorded separator (or after the document start) are those between it
  // and the entry after it, or the end of the document when there is none.
  lemma {:induction false} FromEdge(log: seq<Event>, k: nat, m: nat, limit: int)
    requires Ordered(log) && m < |Edges(log, |log|)| && OpensAt(log, Edges(log, |log|)[m], k)
    requires m + 1 < |Edges(log, |log|)| ==> limit == Edges(log, |log|)[m + 1]
    requires m + 1 == |Edges(log, |log|)| ==> forall i | 0 <= i < |log| :: log[i].Begin() <= limit
    ensures InRange(CommentsOf(log), Edges(log, |log|)[m], limit) == From(log, k)
    ensures m + 1 < |Edges(log, |log|)| ==> GapEnd(log, k) < |log|
    ensures m + 1 == |Edges(log, |log|)| ==> GapEnd(log, k) == |log| || From(log, k) == []
  {
    var s := Edges(log, |log|);
    var e := GapEnd(log, k);
    CommentRunTouches(log, k);
    if m + 1 < |s| { NextEdgeIsBeyond(log, k, m); }
    else if k < e < |log| { NoEdgeBetween(log, m + 1, log[e].Begin()); }
    forall c | CommentAt(log, c) ensures s[m] <= log[c].Begin() <= limit <==> k <= c < e {
      if e <= c && log[c].Begin() <= limit {
        var q := LaterRunOpens(log, k, c);
        assert log[q].Begin() < log[c].Begin();
        NoEdgeBetween(log, m + 1, log[q].Begin());
        assert false;
      }
    }
    InRangeIsSlice(log, |log|, k, e, s[m], limit);
  }

  // ---- growth of the log ----------------------------------------------------------------------

  lemma {:induction false} EdgesKeep(log: seq<Event>, e: Event, n: nat)
    requires n <= |log| && (n == |log| ==> e.Separator?)
    ensures Edges(log + [e], n) == Edges(log, n)
  {
    if n > 0 {
      EdgesKeep(log, e, n - 1);
      assert TouchesComment(log + [e], n - 1) == TouchesComment(log, n - 1);
    }
  }

  // A separator becomes an edge when it closes a run of comments.
  lemma {:induction false} EdgesAddSeparator(log: seq<Event>, r: Region)
    ensures Edges(log + [Separator(r)], |log| + 1)
         == Edges(log, |log|) + if CommentAt(log, |log| - 1) then [r.begin] else []
  {
    EdgesKeep(log, Separator(r), |log|);
  }

  // The last separator becomes an edge, unless it is one already, when a run of comments starts.
  lemma {:induction false} EdgesAddComment(log: seq<Event>, r: Region)
    ensures Edges(log + [Comment(r)], |log| + 1)
         == Edges(log, |log|)
          + if log == [] then [0]
            else if SeparatorAt(log, |log| - 1) && !TouchesComment(log, |log| - 1) then [log[|log| - 1].Begin()]
            else []
  {
    var more := log + [Comment(r)];
    if log != [] { EdgesKeep(log, Comment(r), |log| - 1); }
    assert Edges(more, |log| + 1) == Edges(more, |log|);
  }

  // Just after a separator, the last edge is that separator if it closed a run, and lies before it if not.
  lemma {:induction false} LastEdgeAtSeparator(log: seq<Event>)
    requires Ordered(log) && SeparatorAt(log, |log| - 1)
    ensures var s := Edges(log, |log|);
            if TouchesComment(log, |log| - 1) then s != [] && s[|s| - 1] == log[|log| - 1].Begin()
            else s == [] || s[|s| - 1] < log[|log| - 1].Begin()
  {
    var s := Edges(log, |log| - 1);
    EdgesIncreasing(log, |log| - 1);
    if s != [] { assert s[|s| - 1] in s; }
  }

  // While comments are pending there is a last edge, and it precedes all of them.
  lemma {:induction false} LastEdgeWhilePending(log: seq<Event>)
    requires Ordered(log) && CommentAt(log, |log| - 1)
    ensures Edges(log, |log|) != []
    ensures Edges(log, |log|)[|Edges(log, |log|)| - 1] == OpeningEdge(log, |log|)
    ensures OpeningEdge(log, |log|) <= log[GapStart(log, |log|)].Begin()
    ensures GapStart(log, |log|) > 0 ==> OpeningEdge(log, |log|) < log[GapStart(log, |log|)].Begin()
  {
    var s := Edges(log, |log|);
    EdgeList(log);
    OpeningEdgeIsEdge(log, |log|);
    NoEdgeBetween(log, |s|, OpeningEdge(log, |log|));
    assert s[|s| - 1] in s;
    OpeningEdgeIsLast(log, |log|, s[|s| - 1]);
  }

  // ---- how large the compressed index gets -----------------------------------------------------

  // Maximal runs of comments among the first n events, those closed by a separator, and the
  // separators that stand between two runs and so serve as an edge of both.
  function Runs(log: seq<Event>, n: nat): nat
    requires n <= |log|
  {
    if n == 0 then 0 else Runs(log, n - 1) + if CommentAt(log, n - 1) && !CommentAt(log, n - 2) then 1 else 0
  }

  function ClosedRuns(log: seq<Event>, n: nat): nat
    requires n <= |log|
  {
    if n == 0 then 0 else ClosedRuns(log, n - 1) + if SeparatorAt(log, n - 1) && CommentAt(log, n - 2) then 1 else 0
  }

  function SharedEdges(log: seq<Event>, n: nat): nat
    requires n <= |log|
  {
    if n == 0 then 0
    else
      var shared := SeparatorAt(log, n - 1) && CommentAt(log, n - 2) && CommentAt(log, n);
      SharedEdges(log, n - 1) + if shared then 1 else 0
  }

  // The index holds one entry per end of a run of comments, an entry shared by two runs counting
  // once: however many separators were seen, at most two entries per run.
  lemma {:induction false} EdgeCount(log: seq<Event>, n: nat)
    requires n <= |log|
    ensures |Edges(log, n)| + SharedEdges(log, n)
         == Runs(log, n) + ClosedRuns(log, n) + if CommentAt(log, n) && !CommentAt(log, n - 1) then 1 else 0
    ensures ClosedRuns(log, n) == Runs(log, n) - if CommentAt(log, n - 1) then 1 else 0
    ensures Runs(log, n) <= |Comments(log, 0, n)|
  {
    if n > 0 { EdgeCount(log, n - 1); }
  }

  lemma {:induction false} IndexSizeBound(log: seq<Event>)
    ensures |Edges(log, |log|)|
         == 2 * Runs(log, |log|) - SharedEdges(log, |log|) - if CommentAt(log, |log| - 1) then 1 else 0
    ensures |Edges(log, |log|)| <= 2 * Runs(log, |log|) <= 2 * |CommentsOf(log)|
  {
    EdgeCount(log, |log|);
  }

  // ---- what the answers mean over a whole run ---------------------------------------------------

  // A separator's leading comments never change once it has been reported.
  lemma {:induction false} BeforeIsStable(log: seq<Event>, more: seq<Event>, k: nat)
    requires k <= |log|
    ensures GapStart(log + more, k) == GapStart(log, k)
    ensures Before(log + more, k) == Before(log, k)
  {
    if CommentAt(log, k - 1) { BeforeIsStable(log, more, k - 1); }
    CommentsKeep(log, more, GapStart(log, k), k);
  }

  // The comments following one separator are those leading the next.
  lemma {:induction false} FollowingIsLeadingOfNext(log: seq<Event>, k: nat)
    requires SeparatorAt(log, k) && GapEnd(log, k + 1) < |log|
    ensures SeparatorAt(log, GapEnd(log, k + 1))
    ensures From(log, k + 1) == Before(log, GapEnd(log, k + 1))
  {
    GapStartIs(log, k + 1, GapEnd(log, k + 1));
  }

  lemma {:induction false} GapStartIs(log: seq<Event>, j: nat, k: nat)
    requires j <= k <= |log| && (forall i | j <= i < k :: CommentAt(log, i)) && !CommentAt(log, j - 1)
    ensures GapStart(log, k) == j
  {
    if j < k { GapStartIs(log, j, k - 1); }
  }

  // The leading comments of the separators among the first n events, put end to end.
  function AllLeading(log: seq<Event>, n: nat): seq<Region>
    requires n <= |log|
  {
    if n == 0 then [] else AllLeading(log, n - 1) + if SeparatorAt(log, n - 1) then Before(log, n - 1) else []
  }

  lemma {:induction false} LeadingPlusPending(log: seq<Event>, n: nat)
    requires n <= |log|
    ensures AllLeading(log, n) + Before(log, n) == Comments(log, 0, n)
  {
    if n > 0 {
      LeadingPlusPending(log, n - 1);
    }
  }

  // No comment is lost or attributed twice: the leading comments of all separators are all the
  // comments exactly when no comment is still waiting for a separator.
  lemma {:induction false} CommentsConserved(log: seq<Event>)
    ensures AllLeading(log, |log|) == CommentsOf(log) <==> !CommentAt(log, |log| - 1)
  {
    LeadingPlusPending(log, |log|);
    assert Before(log, |log|) == [] <==> !CommentAt(log, |log| - 1);
  }
}
