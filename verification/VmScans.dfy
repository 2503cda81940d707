/** The passes over the region list that the virtual-memory calls make before they change anything. */
module VmScans {
  import opened Base
  import opened Align
  import opened Regions
  import opened VmSearch
  import opened DirectMemory
  import opened VmState

  predicate Overlaps(i: Info, lo: int, hi: int) { lo < InfoEnd(i) && i.base < hi }

  lemma ListingInOrder(rs: Table, s: seq<Info>, native: bool)
    requires Valid(rs, native) && Listing(rs, s)
    ensures InOrder(s)
  {
    forall i | 0 <= i < |s| ensures 0 < s[i].size && InfoEnd(s[i]) <= U64_MAX {
      var k: int := s[i].base;
      assert Fit(rs[k], native);
    }
    forall i, j | 0 <= i < j < |s| ensures InfoEnd(s[i]) <= s[j].base {
      var k: int, m: int := s[i].base, s[j].base;
      assert End(rs[k]) <= m;
    }
  }

  /** The listed region at an address is the region of the table. */
  lemma ListedAt(rs: Table, s: seq<Info>, native: bool, i: nat, a: int)
    requires Valid(rs, native) && Listing(rs, s) && i < |s| && s[i].base <= a < InfoEnd(s[i])
    ensures Mapped(rs, a) && (FlexAt(rs, a) <==> s[i].kind == Flexible)
  {
    var k: int := s[i].base;
    assert CellAt(rs[k], a, CellOf(rs[k], a)) && Has(rs, a, CellOf(rs[k], a));
    if FlexAt(rs, a) {
      var c :| Has(rs, a, c) && c.kind == Flexible;
      OneCell(rs, native, a, c, CellOf(rs[k], a));
    }
  }

  lemma UnlistedAt(rs: Table, s: seq<Info>, native: bool, a: int)
    requires Valid(rs, native) && Listing(rs, s) && forall i :: 0 <= i < |s| ==> !(s[i].base <= a < InfoEnd(s[i]))
    ensures !Mapped(rs, a) && !FlexAt(rs, a)
  {
    forall k | k in rs ensures !Covers(rs[k], a) {
      var i :| 0 <= i < |s| && s[i].base == k;
    }
  }

  function Clamp(x: int, lo: int, hi: int): int { if x < lo then lo else if x > hi then hi else x }

  /** One region's share of the count, given the count up to the end of the one before. */
  lemma CountThrough(rs: Table, s: seq<Info>, native: bool, i: nat, lo: int, hi: int, cur: int)
    requires Valid(rs, native) && Listing(rs, s) && InOrder(s) && i < |s| && lo < hi && cur <= s[i].base
    requires forall j :: 0 <= j < i ==> InfoEnd(s[j]) <= cur
    ensures Count(rs, lo, Clamp(InfoEnd(s[i]), lo, hi)) == Count(rs, lo, Clamp(cur, lo, hi))
            + (if s[i].kind == Flexible
               && Overlaps(s[i], lo, hi) then Clamp(InfoEnd(s[i]), lo, hi) - Clamp(s[i].base, lo, hi) else 0)
  {
    var p, q, r := Clamp(cur, lo, hi), Clamp(s[i].base, lo, hi), Clamp(InfoEnd(s[i]), lo, hi);
    CountSplit(rs, lo, p, r);
    CountSplit(rs, p, q, r);
    forall a | p <= a < q ensures !FlexAt(rs, a) { UnlistedAt(rs, s, native, a); }
    CountNone(rs, p, q);
    forall a | q <= a < r ensures FlexAt(rs, a) <==> s[i].kind == Flexible { ListedAt(rs, s, native, i, a); }
    if s[i].kind == Flexible { CountAll(rs, q, r); } else { CountNone(rs, q, r); }
  }

  /** The flexible bytes that a range holds, summed region by region. */
  method SumFlexible(s: seq<Info>, lo: int, hi: int, ghost rs: Table, ghost native: bool) returns (sum: nat)
    requires Valid(rs, native) && Listing(rs, s) && InOrder(s) && 0 <= lo < hi
    ensures sum == Count(rs, lo, hi)
  {
    sum := 0;
    ghost var cur := 0;
    for i := 0 to |s|
      invariant sum == Count(rs, lo, Clamp(cur, lo, hi))
      invariant (forall j :: 0 <= j < i ==> InfoEnd(s[j]) <= cur) && (i < |s| ==> cur <= s[i].base)
    {
      CountThrough(rs, s, native, i, lo, hi, cur);
      if s[i].kind == Flexible && Overlaps(s[i], lo, hi) {
        var begin, end := if lo > s[i].base then lo else s[i].base, if hi < InfoEnd(s[i]) then hi else InfoEnd(s[i]);
        sum := sum + (end - begin);
      }
      cur := InfoEnd(s[i]);
    }
    CountSplit(rs, lo, Clamp(cur, lo, hi), hi);
    forall a | Clamp(cur, lo, hi) <= a < hi ensures !FlexAt(rs, a) { UnlistedAt(rs, s, native, a); }
    CountNone(rs, Clamp(cur, lo, hi), hi);
  }

  /** Whether any region meets a range. */
  method AnyOverlap(s: seq<Info>, lo: int, hi: int) returns (r: bool)
    ensures r <==> exists i :: 0 <= i < |s| && Overlaps(s[i], lo, hi)
  {
    for i := 0 to |s|
      invariant forall j :: 0 <= j < i ==> !Overlaps(s[j], lo, hi)
    {
      if Overlaps(s[i], lo, hi) { return true; }
    }
    return false;
  }

  /** Whether every region that meets a range is of one of the given kinds. */
  method AllOverlapsIn(s: seq<Info>, lo: int, hi: int, kinds: set<Kind>) returns (r: bool)
    ensures r <==> forall i :: 0 <= i < |s| && Overlaps(s[i], lo, hi) ==> s[i].kind in kinds
  {
    for i := 0 to |s|
      invariant forall j :: 0 <= j < i && Overlaps(s[j], lo, hi) ==> s[j].kind in kinds
    {
      if Overlaps(s[i], lo, hi) && s[i].kind !in kinds { return false; }
    }
    return true;
  }

  lemma NoOverlapIsFree(rs: Table, s: seq<Info>, lo: int, hi: int)
    requires Listing(rs, s) && (forall k :: k in rs ==> rs[k].info.base == k && k < TWO64)
             && forall i :: 0 <= i < |s| ==> !Overlaps(s[i], lo, hi)
    ensures Free(rs, lo, hi)
  {
    forall k | k in rs ensures !Meets(rs[k], lo, hi) {
      var i :| 0 <= i < |s| && s[i].base == k;
    }
  }

  /** `a` is a place for `size` bytes between `begin` and `end` that no region meets. */
  predicate FlexPlace(s: seq<Info>, begin: int, end: int, size: int, a: int) {
    begin <= a && a + size <= end && MissesAll(s, a, size)
  }

  /** The first fit of map_flexible_memory: the least place in the window, aligned or not. */
  method FirstFit(s: seq<Info>, begin: U64, end: U64, size: U64) returns (r: Option<U64>)
    requires InOrder(s) && begin <= end && 0 < size
    ensures r.Some? ==> FlexPlace(s, begin, end, size, r.value)
                        && forall a :: a < r.value ==> !FlexPlace(s, begin, end, size, a)
    ensures r.None? ==> forall a :: !FlexPlace(s, begin, end, size, a)
  {
    var cursor: U64 := begin;
    for i := 0 to |s|
      invariant begin <= cursor && forall a :: a < cursor ==> !FlexPlace(s, begin, end, size, a)
      invariant forall j :: 0 <= j < i ==> InfoEnd(s[j]) <= cursor || s[j].base >= end
    {
      if InfoEnd(s[i]) <= begin || s[i].base >= end { continue; }
      if cursor <= s[i].base && size <= s[i].base - cursor {
        return Some(cursor);
      }
      forall a | cursor <= a < InfoEnd(s[i]) ensures !FlexPlace(s, begin, end, size, a) {
        assert !(a + size <= s[i].base || InfoEnd(s[i]) <= a);
      }
      cursor := if InfoEnd(s[i]) > cursor then InfoEnd(s[i]) else cursor;
    }
    return if cursor <= end && size <= end - cursor then Some(cursor) else None;
  }

  /** A range that meets no flexible region holds no flexible byte. */
  lemma NoFlexibleMet(rs: Table, s: seq<Info>, native: bool, lo: int, hi: int)
    requires Valid(rs, native) && Listing(rs, s)
             && forall i :: 0 <= i < |s| && Overlaps(s[i], lo, hi) ==> s[i].kind != Flexible
    ensures Count(rs, lo, hi) == 0
  {
    forall a | lo <= a < hi ensures !FlexAt(rs, a) {
      if i :| 0 <= i < |s| && s[i].base <= a < InfoEnd(s[i]) {
        ListedAt(rs, s, native, i, a);
      } else {
        UnlistedAt(rs, s, native, a);
      }
    }
    CountNone(rs, lo, hi);
  }

  // ---- Blocked physical ranges ------------------------------------------

  ghost predicate Nonempty(b: seq<Range>, cap: int) { forall x :: x in b ==> x.lo < x.hi <= cap }

  lemma InRangesMore(b: seq<Range>, x: Range)
    ensures forall a :: InRanges(b + [x], a) <==> InRanges(b, a) || x.lo <= a < x.hi
  {
    forall a ensures InRanges(b + [x], a) <==> InRanges(b, a) || x.lo <= a < x.hi {
      if InRanges(b, a) {
        var y :| y in b && y.lo <= a < y.hi;
        assert y in b + [x];
      }
      if x.lo <= a < x.hi { assert x in b + [x]; }
    }
  }

  method BlockedByAllocs(al: seq<Alloc>, cap: U64) returns (b: seq<Range>)
    requires ValidAllocs(al, cap)
    ensures Nonempty(b, cap) && forall a :: InRanges(b, a) <==> Allocated(al, a)
  {
    b := [];
    for i := 0 to |al|
      invariant Nonempty(b, cap) && forall a :: InRanges(b, a) <==> Allocated(al[..i], a)
    {
      assert FitAlloc(al[i], cap);
      InRangesMore(b, Range(al[i].base, AllocEnd(al[i])));
      AllocatedMore(al, i);
      b := b + [Range(al[i].base, AllocEnd(al[i]))];
    }
    assert al[..|al|] == al;
  }

  /** Address `base + a` lies in one of the first `n` regions of the list. */
  ghost predicate InFirst(s: seq<Info>, n: nat, x: int)
    requires n <= |s|
  {
    exists i :: 0 <= i < n && s[i].base <= x < InfoEnd(s[i])
  }

  method BlockedByRegions(b0: seq<Range>, s: seq<Info>, base: U64, cap: U64) returns (b: seq<Range>)
    requires InOrder(s) && Nonempty(b0, cap) && 0 < cap && base + cap <= U64_MAX
    ensures Nonempty(b, cap)
    ensures forall a :: 0 <= a < cap ==> (InRanges(b, a) <==> InRanges(b0, a) || InFirst(s, |s|, base + a))
  {
    b := b0;
    for i := 0 to |s|
      invariant Nonempty(b, cap)
      invariant forall a :: 0 <= a < cap ==> (InRanges(b, a) <==> InRanges(b0, a) || InFirst(s, i, base + a))
    {
      FirstMore(s, i);
      if s[i].base >= base + cap || InfoEnd(s[i]) <= base { continue; }
      var lo := if s[i].base > base then s[i].base else base;
      var hi := if InfoEnd(s[i]) < base + cap then InfoEnd(s[i]) else base + cap;
      InRangesMore(b, Range(lo - base, hi - base));
      b := b + [Range(lo - base, hi - base)];
    }
  }

  lemma FirstMore(s: seq<Info>, i: nat)
    requires i < |s|
    ensures forall x :: InFirst(s, i + 1, x) <==> InFirst(s, i, x) || s[i].base <= x < InfoEnd(s[i])
  {
    forall x ensures InFirst(s, i + 1, x) <==> InFirst(s, i, x) || s[i].base <= x < InfoEnd(s[i]) {
      if InFirst(s, i, x) {
        var j :| 0 <= j < i && s[j].base <= x < InfoEnd(s[j]);
        assert 0 <= j < i + 1;
      }
    }
  }

  /** A physical address is taken if it is allocated or its canonical address is mapped. */
  ghost predicate Taken(al: seq<Alloc>, rs: Table, base: int, a: int) { Allocated(al, a) || Mapped(rs, base + a) }

  /** direct_blocked_ranges_locked: non-empty ranges, sorted by start, that cover exactly the taken addresses. */
  method BlockedRanges(al: seq<Alloc>, s: seq<Info>, base: U64, cap: U64, ghost rs: Table, ghost native: bool)
    returns (b: seq<Range>)
    requires ValidAllocs(al, cap) && Valid(rs, native) && Listing(rs, s) && 0 < cap && base + cap <= U64_MAX
    ensures ByStart(b) && Nonempty(b, cap)
    ensures forall a :: 0 <= a < cap ==> (InRanges(b, a) <==> Taken(al, rs, base, a))
  {
    ListingInOrder(rs, s, native);
    b := BlockedByAllocs(al, cap);
    b := BlockedByRegions(b, s, base, cap);
    forall x: int ensures InFirst(s, |s|, x) <==> Mapped(rs, x) { FirstIsMapped(rs, s, native, x); }
    SortRangesSorted(b);
    SameRanges(b, SortRanges(b));
    b := SortRanges(b);
  }

  lemma FirstIsMapped(rs: Table, s: seq<Info>, native: bool, x: int)
    requires Valid(rs, native) && Listing(rs, s)
    ensures InFirst(s, |s|, x) <==> Mapped(rs, x)
  {
    if InFirst(s, |s|, x) {
      var i :| 0 <= i < |s| && s[i].base <= x < InfoEnd(s[i]);
      ListedAt(rs, s, native, i, x);
    } else {
      UnlistedAt(rs, s, native, x);
    }
  }

  lemma SameRanges(b: seq<Range>, c: seq<Range>)
    requires forall y :: y in c <==> y in b
    ensures forall a :: InRanges(b, a) <==> InRanges(c, a)
  {
    forall a ensures InRanges(b, a) <==> InRanges(c, a) {
      if InRanges(b, a) { var x :| x in b && x.lo <= a < x.hi; assert x in c; }
      if InRanges(c, a) { var x :| x in c && x.lo <= a < x.hi; assert x in b; }
    }
  }
}
