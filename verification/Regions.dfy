/** Byte regions of the source document (`ast::node_region`) and their union. */
module Regions {

  // `std::size_t` is modelled as 64 bits wide; its largest value marks an invalid position.
  const NPOS := 0xFFFF_FFFF_FFFF_FFFF

  type Position = p: int | 0 <= p <= NPOS

  // Unsigned arithmetic on positions wraps around.
  function Wrap(n: int): Position { if 0 <= n <= NPOS then n else n % (NPOS + 1) }

  function Min(a: Position, b: Position): Position { if b < a then b else a }

  function Max(a: Position, b: Position): Position { if a < b then b else a }

  datatype Region = Region(begin: Position, end: Position) {

    // The conversion to `bool`.
    predicate IsValid() { begin != NPOS && end != NPOS }

    function Size(): Position { Wrap(end - begin) }

    // The call operator: the sub-region at `offset`, up to the end when `length` is NPOS.
    function Sub(offset: Position, length: Position): Region {
      var from := Wrap(begin + offset);
      var to := if length == NPOS then end else Wrap(from + length);
      Region(Min(Min(from, to), end), Min(to, end))
    }

    predicate Encloses(inner: Region) { begin <= inner.begin && inner.end <= end }
  }

  const INVALID := Region(NPOS, NPOS)

  // `operator|`: an invalid operand is ignored.
  function Union(a: Region, b: Region): Region {
    if !a.IsValid() then b
    else if !b.IsValid() then a
    else Region(Min(a.begin, b.begin), Max(a.end, b.end))
  }

  function UnionAll(rs: seq<Region>): Region {
    if rs == [] then INVALID else Union(rs[0], UnionAll(rs[1..]))
  }

  lemma {:induction false} UnionAssociates(a: Region, b: Region, c: Region)
    ensures Union(Union(a, b), c) == Union(a, Union(b, c))
  {
    assert Union(a, b).IsValid() <==> a.IsValid() || b.IsValid();
  }

  // Union commutes unless two different invalid regions meet: the right one then wins.
  lemma {:induction false} UnionCommutes(a: Region, b: Region)
    ensures Union(a, b) == Union(b, a) <==> a == b || a.IsValid() || b.IsValid()
  {
    assert !a.IsValid() ==> Union(a, b) == b;
    assert !b.IsValid() ==> Union(b, a) == a;
  }

  lemma {:induction false} UnionDoesNotCommuteOnInvalidRegions()
    ensures exists a, b :: Union(a, b) != Union(b, a)
  {
    assert Union(Region(NPOS, 0), Region(NPOS, 1)) != Union(Region(NPOS, 1), Region(NPOS, 0));
  }

  // `r` is the smallest valid region around every valid member of `rs`.
  ghost predicate IsHull(r: Region, rs: seq<Region>) {
    && r.IsValid()
    && (forall a <- rs :: a.IsValid() ==> r.Encloses(a))
    && forall s: Region :: s.IsValid() && (forall a <- rs :: a.IsValid() ==> s.Encloses(a)) ==> s.Encloses(r)
  }

  // Folding the union over any list gives the hull of its valid members, and nothing else is that hull.
  lemma {:induction false} UnionAllIsHull(rs: seq<Region>)
    ensures UnionAll(rs).IsValid() <==> exists a <- rs :: a.IsValid()
    ensures UnionAll(rs).IsValid() ==> forall r :: IsHull(r, rs) <==> r == UnionAll(rs)
  {
    if rs != [] {
      UnionAllIsHull(rs[1..]);
      var u, tail := UnionAll(rs), UnionAll(rs[1..]);
      assert forall a :: a in rs <==> a == rs[0] || a in rs[1..];
      if u.IsValid() {
        if tail.IsValid() { assert IsHull(tail, rs[1..]); }
        assert IsHull(u, rs);
        forall r | IsHull(r, rs) ensures r == u {
          assert u.Encloses(r) && r.Encloses(u);
        }
      }
    }
  }

  lemma {:induction false} UnionIsHull(a: Region, b: Region)
    requires a.IsValid() && b.IsValid()
    ensures IsHull(Union(a, b), [a, b])
  {
    assert a in [a, b] && b in [a, b];
  }

  // The documented use of the call operator: a range inside the region is cut out exactly.
  lemma {:induction false} SubCutsOutTheRange(r: Region, offset: Position, length: Position)
    requires r.IsValid() && r.begin <= r.end
    requires if length == NPOS then r.begin + offset <= r.end else r.begin + offset + length <= r.end
    ensures r.Sub(offset, length).begin == r.begin + offset
    ensures r.Sub(offset, length).end == if length == NPOS then r.end else r.begin + offset + length
    ensures r.Encloses(r.Sub(offset, length))
  {
  }
}
