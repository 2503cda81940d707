/** The direct-memory allocations: an ordered table of physical ranges with a memory type. */
module DirectMemory {
  import opened Base
  import opened Align
  import opened VmSearch

  datatype Alloc = Alloc(base: U64, size: U64, memoryType: int)

  function AllocEnd(x: Alloc): int { x.base + x.size }

  predicate Holds(x: Alloc, a: int) { x.base <= a < AllocEnd(x) }

  ghost predicate FitAlloc(x: Alloc, cap: int) {
    0 < x.size && AllocEnd(x) <= cap && Aligned(x.base, GUEST_PAGE) && Aligned(x.size, GUEST_PAGE)
  }

  /** In order, disjoint, page-multiple and within capacity. */
  ghost predicate ValidAllocs(al: seq<Alloc>, cap: int) {
    && (forall i :: 0 <= i < |al| ==> FitAlloc(al[i], cap))
    && (forall i, j :: 0 <= i < j < |al| ==> AllocEnd(al[i]) <= al[j].base)
  }

  /** Physical address `a` is allocated with memory type `t`. */
  ghost predicate AllocAt(al: seq<Alloc>, a: int, t: int) {
    exists i :: 0 <= i < |al| && Holds(al[i], a) && al[i].memoryType == t
  }

  ghost predicate Allocated(al: seq<Alloc>, a: int) { exists i :: 0 <= i < |al| && Holds(al[i], a) }

  ghost predicate AllAllocated(al: seq<Alloc>, lo: int, hi: int) { forall a :: lo <= a < hi ==> Allocated(al, a) }

  lemma OneAlloc(al: seq<Alloc>, cap: int, i: nat, j: nat, a: int)
    requires ValidAllocs(al, cap) && i < |al| && j < |al| && Holds(al[i], a) && Holds(al[j], a)
    ensures i == j
  {
  }

  // ---- Coverage ---------------------------------------------------------

  /** A first address that is not allocated. */
  lemma Uncovered(al: seq<Alloc>, lo: int, hi: int, a: int)
    requires lo <= a < hi && !Allocated(al, a)
    ensures !AllAllocated(al, lo, hi)
  {
  }

  /** direct_range_has_allocation_locked: every page of the range is allocated. */
  method HasAllocation(al: seq<Alloc>, cap: U64, base: U64, size: U64) returns (r: bool)
    requires ValidAllocs(al, cap)
    ensures r <==> 0 < size && base + size <= cap && AllAllocated(al, base, base + size)
  {
    if size == 0 || base > cap || size > cap - base { return false; }
    var cursor, end := base, base + size;
    for i := 0 to |al|
      invariant base <= cursor < end && AllAllocated(al, base, cursor)
      invariant forall j :: 0 <= j < i ==> AllocEnd(al[j]) <= cursor
    {
      if al[i].base > cursor {
        Uncovered(al, base, end, cursor);
        return false;
      }
      if AllocEnd(al[i]) > cursor {
        cursor := if end < AllocEnd(al[i]) then end else AllocEnd(al[i]);
        assert forall a :: al[i].base <= a < cursor ==> Holds(al[i], a);
        if cursor == end { return true; }
      }
    }
    Uncovered(al, base, end, cursor);
    return false;
  }

  ghost predicate AllOfType(al: seq<Alloc>, lo: int, hi: int, t: int) { forall a :: lo <= a < hi ==> AllocAt(al, a, t) }

  /** direct_range_covered_locked: allocated throughout with one memory type, which it returns. */
  method Covered(al: seq<Alloc>, cap: U64, base: U64, size: U64) returns (t: Option<int>)
    requires ValidAllocs(al, cap)
    ensures t.Some? ==> 0 < size && base + size <= cap && AllOfType(al, base, base + size, t.value)
    ensures t.None? ==> size == 0 || base + size > cap || NoType(al, base, base + size)
  {
    t := None;
    var all := HasAllocation(al, cap, base, size);
    if !all {
      if 0 < size && base + size <= cap { NotTyped(al, base, base + size); }
      return;
    }
    var end := base + size;
    for i := 0 to |al|
      invariant t.None? ==> forall j :: 0 <= j < i ==> !Touches(al[j], base, end)
      invariant t.Some? ==> forall j :: 0 <= j < i && Touches(al[j], base, end) ==> al[j].memoryType == t.value
      invariant t.Some? ==> exists j :: 0 <= j < i && Touches(al[j], base, end)
    {
      if Touches(al[i], base, end) {
        if t.None? {
          t := Some(al[i].memoryType);
        } else if t.value != al[i].memoryType {
          var j :| 0 <= j < i && Touches(al[j], base, end);
          forall u ensures !AllOfType(al, base, end, u) { TwoTypes(al, cap, base, end, j, i, u); }
          return None;
        }
      }
    }
    assert Allocated(al, base);
    forall a | t.Some? && base <= a < end ensures AllocAt(al, a, t.value) {
      assert Allocated(al, a);
      var j :| 0 <= j < |al| && Holds(al[j], a);
      assert Touches(al[j], base, end);
    }
  }

  ghost predicate NoType(al: seq<Alloc>, lo: int, hi: int) { forall u :: !AllOfType(al, lo, hi, u) }

  predicate Touches(x: Alloc, lo: int, hi: int) { AllocEnd(x) > lo && x.base < hi }

  lemma NotTyped(al: seq<Alloc>, lo: int, hi: int)
    requires !AllAllocated(al, lo, hi)
    ensures NoType(al, lo, hi)
  {
    var a :| lo <= a < hi && !Allocated(al, a);
    forall t ensures !AllOfType(al, lo, hi, t) { assert !AllocAt(al, a, t); }
  }

  lemma TwoTypes(al: seq<Alloc>, cap: int, lo: int, hi: int, i: nat, j: nat, t: int)
    requires ValidAllocs(al, cap) && i < |al| && j < |al| && lo < hi
    requires Touches(al[i], lo, hi) && Touches(al[j], lo, hi) && al[i].memoryType != al[j].memoryType
    ensures !AllOfType(al, lo, hi, t)
  {
    var k := if al[i].memoryType != t then i else j;
    var a := if al[k].base < lo then lo else al[k].base;
    assert Holds(al[k], a);
    if AllocAt(al, a, t) {
      var l :| 0 <= l < |al| && Holds(al[l], a) && al[l].memoryType == t;
      OneAlloc(al, cap, k, l, a);
    }
    assert !AllocAt(al, a, t);
  }

  // ---- Allocation -------------------------------------------------------

  /** Insertion in address order. */
  function Insert(al: seq<Alloc>, x: Alloc): seq<Alloc> {
    if al == [] then [x]
    else if x.base < al[0].base then [x] + al
    else [al[0]] + Insert(al[1..], x)
  }

  lemma {:induction false} InsertHas(al: seq<Alloc>, x: Alloc, a: int, t: int)
    ensures AllocAt(Insert(al, x), a, t) <==> AllocAt(al, a, t) || (Holds(x, a) && x.memoryType == t)
  {
    var r := Insert(al, x);
    if al == [] {
      assert r[0] == x;
    } else if x.base < al[0].base {
      assert r[0] == x && forall i :: 0 <= i < |al| ==> r[i + 1] == al[i];
      if AllocAt(al, a, t) {
        var i :| 0 <= i < |al| && Holds(al[i], a) && al[i].memoryType == t;
        assert r[i + 1] == al[i];
      }
    } else {
      InsertHas(al[1..], x, a, t);
      HasCons(al[0], al[1..], a, t);
      HasCons(al[0], Insert(al[1..], x), a, t);
      assert [al[0]] + al[1..] == al;
    }
  }

  lemma HasCons(x: Alloc, al: seq<Alloc>, a: int, t: int)
    ensures AllocAt([x] + al, a, t) <==> (Holds(x, a) && x.memoryType == t) || AllocAt(al, a, t)
  {
    var r := [x] + al;
    if Holds(x, a) && x.memoryType == t { assert r[0] == x; }
    if AllocAt(al, a, t) {
      var i :| 0 <= i < |al| && Holds(al[i], a) && al[i].memoryType == t;
      assert r[i + 1] == al[i];
    }
  }

  predicate Misses(al: seq<Alloc>, x: Alloc) {
    forall i :: 0 <= i < |al| ==> AllocEnd(x) <= al[i].base || AllocEnd(al[i]) <= x.base
  }

  lemma {:induction false} InsertAbove(al: seq<Alloc>, x: Alloc, lo: int)
    requires lo <= x.base && forall i :: 0 <= i < |al| ==> lo <= al[i].base
    ensures forall i :: 0 <= i < |Insert(al, x)| ==> lo <= Insert(al, x)[i].base
  {
    if al != [] && x.base >= al[0].base { InsertAbove(al[1..], x, lo); }
  }

  lemma ConsValid(y: Alloc, al: seq<Alloc>, cap: int)
    requires FitAlloc(y, cap) && ValidAllocs(al, cap) && forall i :: 0 <= i < |al| ==> AllocEnd(y) <= al[i].base
    ensures ValidAllocs([y] + al, cap)
  {
  }

  lemma {:induction false} InsertValid(al: seq<Alloc>, x: Alloc, cap: int)
    requires ValidAllocs(al, cap) && FitAlloc(x, cap) && Misses(al, x)
    ensures ValidAllocs(Insert(al, x), cap)
  {
    if al != [] {
      var y, rest := al[0], al[1..];
      if x.base < y.base {
        ConsValid(x, al, cap);
      } else {
        assert y.base < AllocEnd(y);
        InsertValid(rest, x, cap);
        InsertAbove(rest, x, AllocEnd(y));
        ConsValid(y, Insert(rest, x), cap);
      }
    }
  }

  // ---- Release ----------------------------------------------------------

  /** What is left of an allocation once [lo, hi) is released. */
  function Cut(x: Alloc, lo: U64, hi: U64): seq<Alloc> {
    if AllocEnd(x) <= lo || x.base >= hi then [x]
    else
      (if x.base < lo then [x.(size := lo - x.base)] else [])
      + (if AllocEnd(x) > hi then [Alloc(hi, AllocEnd(x) - hi, x.memoryType)] else [])
  }

  function Trim(al: seq<Alloc>, lo: U64, hi: U64): seq<Alloc> {
    if al == [] then [] else Trim(al[..|al| - 1], lo, hi) + Cut(al[|al| - 1], lo, hi)
  }

  lemma HasAppend(x: seq<Alloc>, y: seq<Alloc>, a: int, t: int)
    ensures AllocAt(x + y, a, t) <==> AllocAt(x, a, t) || AllocAt(y, a, t)
  {
    if AllocAt(x, a, t) {
      var i :| 0 <= i < |x| && Holds(x[i], a) && x[i].memoryType == t;
      assert (x + y)[i] == x[i];
    }
    if AllocAt(y, a, t) {
      var i :| 0 <= i < |y| && Holds(y[i], a) && y[i].memoryType == t;
      assert (x + y)[|x| + i] == y[i];
    }
  }

  lemma CutHas(x: Alloc, lo: U64, hi: U64, a: int, t: int)
    requires lo < hi
    ensures AllocAt(Cut(x, lo, hi), a, t) <==> Holds(x, a) && x.memoryType == t && !(lo <= a < hi)
  {
    var c := Cut(x, lo, hi);
    if Holds(x, a) && x.memoryType == t && !(lo <= a < hi) {
      if a < lo { assert Holds(c[0], a); } else { assert Holds(c[|c| - 1], a); }
    }
  }

  /** Releasing takes exactly the range out of the allocated set. */
  lemma {:induction false} TrimHas(al: seq<Alloc>, lo: U64, hi: U64, a: int, t: int)
    requires lo < hi
    ensures AllocAt(Trim(al, lo, hi), a, t) <==> AllocAt(al, a, t) && !(lo <= a < hi)
  {
    if al != [] {
      var last := |al| - 1;
      TrimHas(al[..last], lo, hi, a, t);
      CutHas(al[last], lo, hi, a, t);
      HasAppend(Trim(al[..last], lo, hi), Cut(al[last], lo, hi), a, t);
      HasAppend(al[..last], [al[last]], a, t);
      assert al[..last] + [al[last]] == al;
      HasCons(al[last], [], a, t);
      assert [al[last]] + [] == [al[last]];
    }
  }

  lemma CutValid(x: Alloc, lo: U64, hi: U64, cap: int)
    requires FitAlloc(x, cap) && lo < hi && Aligned(lo, GUEST_PAGE) && Aligned(hi, GUEST_PAGE)
    ensures ValidAllocs(Cut(x, lo, hi), cap)
    ensures forall i :: 0 <= i < |Cut(x, lo, hi)| ==>
                          x.base <= Cut(x, lo, hi)[i].base && AllocEnd(Cut(x, lo, hi)[i]) <= AllocEnd(x)
  {
    AlignedSum(x.base, x.size, GUEST_PAGE);
    if x.base < lo { AlignedSum(x.base, lo - x.base, GUEST_PAGE); }
    if AllocEnd(x) > hi { AlignedSum(hi, AllocEnd(x) - hi, GUEST_PAGE); }
  }

  lemma {:induction false} TrimValid(al: seq<Alloc>, lo: U64, hi: U64, cap: int)
    requires ValidAllocs(al, cap) && lo < hi && Aligned(lo, GUEST_PAGE) && Aligned(hi, GUEST_PAGE)
    ensures ValidAllocs(Trim(al, lo, hi), cap)
    ensures al != [] ==> forall i :: 0 <= i < |Trim(al, lo, hi)| ==>
                                       AllocEnd(Trim(al, lo, hi)[i]) <= AllocEnd(al[|al| - 1])
  {
    if al != [] {
      var last := |al| - 1;
      TrimValid(al[..last], lo, hi, cap);
      CutValid(al[last], lo, hi, cap);
    }
  }

  // ---- Released segments ------------------------------------------------

  ghost predicate InSegs(segs: seq<Range>, a: int) { exists i :: 0 <= i < |segs| && segs[i].lo <= a < segs[i].hi }

  /** Adds the released part of an allocation, joining it to a segment that it continues. */
  function AddSegment(segs: seq<Range>, lo: U64, hi: U64): seq<Range> {
    if segs != [] && segs[|segs| - 1].hi == lo then segs[|segs| - 1 := Range(segs[|segs| - 1].lo, hi)]
    else segs + [Range(lo, hi)]
  }

  /** Non-empty, ascending, page-aligned, below `top`. */
  ghost predicate ValidSegs(segs: seq<Range>, top: int) {
    && (forall i :: 0 <= i < |segs| ==> segs[i].lo < segs[i].hi <= top && Aligned(segs[i].lo, GUEST_PAGE)
                                        && Aligned(segs[i].hi, GUEST_PAGE))
    && (forall i, j :: 0 <= i < j < |segs| ==> segs[i].hi <= segs[j].lo)
  }

  lemma AddSegmentIn(segs: seq<Range>, lo: U64, hi: U64)
    requires ValidSegs(segs, lo) && lo < hi && Aligned(lo, GUEST_PAGE) && Aligned(hi, GUEST_PAGE)
    ensures ValidSegs(AddSegment(segs, lo, hi), hi)
    ensures forall a :: InSegs(AddSegment(segs, lo, hi), a) <==> InSegs(segs, a) || lo <= a < hi
  {
    AddSegmentValid(segs, lo, hi);
    forall a ensures InSegs(AddSegment(segs, lo, hi), a) <==> InSegs(segs, a) || lo <= a < hi {
      AddSegmentAt(segs, lo, hi, a);
    }
  }

  lemma AddSegmentValid(segs: seq<Range>, lo: U64, hi: U64)
    requires ValidSegs(segs, lo) && lo < hi && Aligned(lo, GUEST_PAGE) && Aligned(hi, GUEST_PAGE)
    ensures ValidSegs(AddSegment(segs, lo, hi), hi)
  {
  }

  lemma AddSegmentAt(segs: seq<Range>, lo: U64, hi: U64, a: int)
    requires ValidSegs(segs, lo) && lo < hi
    ensures InSegs(AddSegment(segs, lo, hi), a) <==> InSegs(segs, a) || lo <= a < hi
  {
    var r := AddSegment(segs, lo, hi);
    if InSegs(segs, a) {
      var i :| 0 <= i < |segs| && segs[i].lo <= a < segs[i].hi;
      assert r[i].lo <= a < r[i].hi;
    }
    if lo <= a < hi { assert r[|r| - 1].lo <= a < r[|r| - 1].hi; }
    if InSegs(r, a) && !(lo <= a < hi) {
      var i :| 0 <= i < |r| && r[i].lo <= a < r[i].hi;
      assert i < |segs| && segs[i].lo <= a < segs[i].hi;
    }
  }

  /** First half of release_direct_memory: the remaining table and the segments to unmap. */
  method PlanRelease(al: seq<Alloc>, cap: U64, lo: U64, hi: U64) returns (next: seq<Alloc>, segs: seq<Range>)
    requires ValidAllocs(al, cap) && lo < hi && Aligned(lo, GUEST_PAGE) && Aligned(hi, GUEST_PAGE)
    ensures next == Trim(al, lo, hi)
    ensures ValidSegs(segs, hi) && forall a :: InSegs(segs, a) <==> Allocated(al, a) && lo <= a < hi
  {
    next, segs := [], [];
    ghost var top := 0;
    for i := 0 to |al|
      invariant next == Trim(al[..i], lo, hi)
      invariant 0 <= top && ValidSegs(segs, top) && (segs != [] ==> i > 0 && top <= AllocEnd(al[i - 1]) && top <= hi)
      invariant segs == [] ==> top == 0
      invariant forall a :: InSegs(segs, a) <==> Allocated(al[..i], a) && lo <= a < hi
    {
      next, segs, top := PlanOne(al, cap, i, lo, hi, next, segs, top);
    }
    assert al[..|al|] == al;
  }

  method PlanOne(al: seq<Alloc>, ghost cap: U64, i: nat, lo: U64, hi: U64, next: seq<Alloc>, segs: seq<Range>,
                 ghost top: int)
    returns (next': seq<Alloc>, segs': seq<Range>, ghost top': int)
    requires ValidAllocs(al, cap) && lo < hi && Aligned(lo, GUEST_PAGE) && Aligned(hi, GUEST_PAGE) && i < |al|
    requires next == Trim(al[..i], lo, hi)
    requires 0 <= top && ValidSegs(segs, top) && (segs != [] ==> i > 0 && top <= AllocEnd(al[i - 1]) && top <= hi)
    requires segs == [] ==> top == 0
    requires forall a :: InSegs(segs, a) <==> Allocated(al[..i], a) && lo <= a < hi
    ensures next' == Trim(al[..i + 1], lo, hi)
    ensures 0 <= top' && ValidSegs(segs', top') && (segs' != [] ==> top' <= AllocEnd(al[i]) && top' <= hi)
    ensures segs' == [] ==> top' == 0
    ensures forall a :: InSegs(segs', a) <==> Allocated(al[..i + 1], a) && lo <= a < hi
  {
    var x := al[i];
    segs', top' := segs, top;
    AllocatedMore(al, i);
    assert al[..i + 1][..i] == al[..i];
    next' := next + Cut(x, lo, hi);
    if AllocEnd(x) <= lo || x.base >= hi { return; }
    var begin, end := if x.base < lo then lo else x.base, if AllocEnd(x) < hi then AllocEnd(x) else hi;
    AlignedSum(x.base, x.size, GUEST_PAGE);
    assert ValidSegs(segs, begin);
    AddSegmentIn(segs, begin, end);
    segs', top' := AddSegment(segs, begin, end), end;
  }

  lemma AllocatedMore(al: seq<Alloc>, i: nat)
    requires i < |al|
    ensures forall a :: Allocated(al[..i + 1], a) <==> Allocated(al[..i], a) || Holds(al[i], a)
  {
    forall a ensures Allocated(al[..i + 1], a) <==> Allocated(al[..i], a) || Holds(al[i], a) {
      if Allocated(al[..i], a) {
        var j :| 0 <= j < i && Holds(al[..i][j], a);
        assert al[..i + 1][j] == al[j];
      }
      if Holds(al[i], a) { assert al[..i + 1][i] == al[i]; }
      if Allocated(al[..i + 1], a) && !Holds(al[i], a) {
        var j :| 0 <= j < i + 1 && Holds(al[..i + 1][j], a);
        assert al[..i][j] == al[j];
      }
    }
  }

  // ---- Blocked ranges ---------------------------------------------------

  function InsertRange(b: seq<Range>, x: Range): seq<Range> {
    if b == [] then [x] else if x.lo <= b[0].lo then [x] + b else [b[0]] + InsertRange(b[1..], x)
  }

  /** The ranges sorted by start. */
  function SortRanges(b: seq<Range>): seq<Range> {
    if b == [] then [] else InsertRange(SortRanges(b[1..]), b[0])
  }

  lemma {:induction false} InsertRangeHas(b: seq<Range>, x: Range, y: Range)
    ensures y in InsertRange(b, x) <==> y == x || y in b
  {
    if b != [] && x.lo > b[0].lo {
      InsertRangeHas(b[1..], x, y);
      assert b == [b[0]] + b[1..];
    }
  }

  lemma {:induction false} InsertRangeSorted(b: seq<Range>, x: Range)
    requires ByStart(b) && x.lo <= x.hi
    ensures ByStart(InsertRange(b, x))
  {
    if b != [] && x.lo > b[0].lo {
      InsertRangeSorted(b[1..], x);
      var r := InsertRange(b[1..], x);
      forall i | 0 <= i < |r| ensures b[0].lo <= r[i].lo {
        InsertRangeHas(b[1..], x, r[i]);
      }
    }
  }

  /** Sorting puts the ranges in order and keeps them. */
  lemma {:induction false} SortRangesSorted(b: seq<Range>)
    requires forall i :: 0 <= i < |b| ==> b[i].lo <= b[i].hi
    ensures ByStart(SortRanges(b)) && forall y :: y in SortRanges(b) <==> y in b
  {
    if b != [] {
      SortRangesSorted(b[1..]);
      InsertRangeSorted(SortRanges(b[1..]), b[0]);
      forall y ensures y in SortRanges(b) <==> y in b { InsertRangeHas(SortRanges(b[1..]), b[0], y); }
    }
  }

  ghost predicate InRanges(b: seq<Range>, a: int) { exists x :: x in b && x.lo <= a < x.hi }

  /** A range of addresses is clear of non-empty ranges iff it holds none of their addresses. */
  lemma ClearIff(b: seq<Range>, at: int, size: int)
    requires size > 0 && forall x :: x in b ==> x.lo < x.hi
    ensures Clear(b, at, size) <==> forall a :: at <= a < at + size ==> !InRanges(b, a)
  {
    if !Clear(b, at, size) {
      var i :| 0 <= i < |b| && !(at + size <= b[i].lo || b[i].hi <= at);
      var a := if b[i].lo < at then at else b[i].lo;
      assert b[i] in b && InRanges(b, a);
    }
  }
}
