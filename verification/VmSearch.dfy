/** Placement searches: the first free range for a mapping, and the direct-memory allocator's search. */
module VmSearch {
  import opened Base
  import opened Align
  import opened Regions
  import opened HostPages

  const GUEST_PAGE: U64 := 16384
  const DEFAULT_MAPPING_BASE: U64 := 0x2_0000_0000

  // ---- Free mappings ----------------------------------------------------

  function InfoEnd(i: Info): int { i.base + i.size }

  /** range_inside_native. */
  predicate InsideArena(arena: Option<Arena>, base: int, size: int) {
    if arena.None? then base + size <= U64_MAX
    else arena.value.base <= base && base + size <= ArenaEnd(arena.value)
  }

  predicate MissesAll(s: seq<Info>, base: int, size: int) {
    forall i :: 0 <= i < |s| ==> base + size <= s[i].base || InfoEnd(s[i]) <= base
  }

  /** A place that a mapping of `size` bytes may take. */
  predicate Place(s: seq<Info>, arena: Option<Arena>, size: int, a: int) {
    a >= 0 && Aligned(a, GUEST_PAGE) && InsideArena(arena, a, size) && MissesAll(s, a, size)
  }

  /** Where the search starts. */
  function Origin(arena: Option<Arena>, requested: U64): (o: U64)
    ensures requested <= o && (arena.Some? ==> arena.value.base <= o) && 0 < o
    ensures o == requested || (arena.Some? && o == arena.value.base) || (requested == 0 && o == DEFAULT_MAPPING_BASE)
  {
    var m := if arena.Some? && arena.value.base > requested then arena.value.base else requested;
    if m == 0 then DEFAULT_MAPPING_BASE else m
  }

  ghost predicate NoneBelow(s: seq<Info>, arena: Option<Arena>, size: int, lo: int, hi: int) {
    forall a :: lo <= a < hi ==> !Place(s, arena, size, a)
  }

  ghost predicate NoneFrom(s: seq<Info>, arena: Option<Arena>, size: int, lo: int) {
    forall a :: lo <= a ==> !Place(s, arena, size, a)
  }

  /** Regions in address order, within the address space. */
  ghost predicate InOrder(s: seq<Info>) {
    && (forall i :: 0 <= i < |s| ==> 0 < s[i].size && InfoEnd(s[i]) <= U64_MAX)
    && (forall i, j :: 0 <= i < j < |s| ==> InfoEnd(s[i]) <= s[j].base)
  }

  /** Rounding up skips no aligned address. */
  lemma CeilSkips(s: seq<Info>, arena: Option<Arena>, size: int, lo: int, x: int)
    requires 0 <= lo <= x && NoneBelow(s, arena, size, lo, x)
    ensures NoneBelow(s, arena, size, lo, Ceil(x, GUEST_PAGE))
  {
    forall a | lo <= a < Ceil(x, GUEST_PAGE) ensures !Place(s, arena, size, a) {
      if x <= a && Aligned(a, GUEST_PAGE) { CeilLeast(x, a, GUEST_PAGE); }
    }
  }

  lemma NoPlaceTooHigh(s: seq<Info>, arena: Option<Arena>, size: int, lo: int, x: int)
    requires 0 <= lo <= x && size > 0 && NoneBelow(s, arena, size, lo, x) && x + (GUEST_PAGE - 1) > U64_MAX
    requires arena.Some? ==> ArenaEnd(arena.value) <= U64_MAX
    ensures NoneFrom(s, arena, size, lo)
  {
    forall a | lo <= a ensures !Place(s, arena, size, a) {
      if x <= a && Aligned(a, GUEST_PAGE) && a <= U64_MAX { TopPage(a); }
    }
  }

  /** The last aligned address below 2^64 is 2^64 - 16384. */
  lemma TopPage(a: int)
    requires 0 <= a <= U64_MAX && Aligned(a, GUEST_PAGE)
    ensures a <= TWO64 - GUEST_PAGE
  {
    AlignedMod(a, GUEST_PAGE);
  }

  /** The start point, rounded up. */
  method Begin(arena: Option<Arena>, requested: U64) returns (c: Option<U64>)
    requires arena.Some? ==> 0 < arena.value.base && ArenaEnd(arena.value) <= U64_MAX
    ensures c.Some? ==> c.value == Ceil(Origin(arena, requested), GUEST_PAGE)
    ensures c.None? ==> Origin(arena, requested) + (GUEST_PAGE - 1) > U64_MAX
  {
    var candidate := requested;
    if arena.Some? {
      var aligned := CheckedAlignUp(arena.value.base, GUEST_PAGE);
      if aligned.None? { return None; }
      CeilBounds(arena.value.base, GUEST_PAGE);
      CeilIsAligned(arena.value.base, GUEST_PAGE);
      if requested <= aligned.value && arena.value.base < requested {
        CeilLeast(requested, aligned.value, GUEST_PAGE);
        CeilMonotone(arena.value.base, requested, GUEST_PAGE);
      }
      candidate := if aligned.value > candidate then aligned.value else candidate;
    }
    if candidate == 0 { candidate := DEFAULT_MAPPING_BASE; }
    if !Aligned(candidate, GUEST_PAGE) {
      return CheckedAlignUp(candidate, GUEST_PAGE);
    }
    return Some(candidate);
  }

  lemma CeilMonotone(x: int, y: int, unit: int)
    requires unit > 0 && 0 <= x <= y
    ensures Ceil(x, unit) <= Ceil(y, unit)
  {
    CeilBounds(y, unit);
    CeilIsAligned(y, unit);
    CeilLeast(x, Ceil(y, unit), unit);
  }

  /** find_free_mapping: the least place at or above the start point, and nothing only if there is none. */
  method FindFreeMapping(s: seq<Info>, arena: Option<Arena>, requested: U64, size: U64) returns (r: Option<U64>)
    requires InOrder(s) && size > 0 && (arena.Some? ==> 0 < arena.value.base && ArenaEnd(arena.value) <= U64_MAX)
    ensures r.Some? ==> Origin(arena, requested) <= r.value && Place(s, arena, size, r.value)
                        && NoneBelow(s, arena, size, Origin(arena, requested), r.value)
    ensures r.None? ==> NoneFrom(s, arena, size, Origin(arena, requested))
  {
    ghost var lo := Origin(arena, requested);
    var first := Begin(arena, requested);
    if first.None? {
      NoPlaceTooHigh(s, arena, size, lo, lo);
      return None;
    }
    var candidate: U64 := first.value;
    CeilSkips(s, arena, size, lo, lo);
    CeilBounds(lo, GUEST_PAGE);
    CeilIsAligned(lo, GUEST_PAGE);
    for i := 0 to |s|
      invariant lo <= candidate && Aligned(candidate, GUEST_PAGE) && NoneBelow(s, arena, size, lo, candidate)
      invariant forall j :: 0 <= j < i ==> InfoEnd(s[j]) <= candidate
    {
      var end := InfoEnd(s[i]);
      if end > candidate {
        if candidate <= s[i].base && size <= s[i].base - candidate {
          r := Settle(s, arena, size, candidate, lo);
          return;
        }
        BlockedUpTo(s, arena, size, lo, candidate, i);
        var aligned := CheckedAlignUp(end, GUEST_PAGE);
        if aligned.None? {
          NoPlaceTooHigh(s, arena, size, lo, end);
          return None;
        }
        CeilSkips(s, arena, size, lo, end);
        CeilBounds(end, GUEST_PAGE);
        CeilIsAligned(end, GUEST_PAGE);
        candidate := aligned.value;
      }
    }
    r := Settle(s, arena, size, candidate, lo);
  }

  /** A candidate too close below a region has no place between it and the region's end. */
  lemma BlockedUpTo(s: seq<Info>, arena: Option<Arena>, size: int, lo: int, candidate: int, i: nat)
    requires i < |s| && size > 0 && NoneBelow(s, arena, size, lo, candidate) && candidate < InfoEnd(s[i])
    requires candidate > s[i].base || size > s[i].base - candidate
    ensures NoneBelow(s, arena, size, lo, InfoEnd(s[i]))
  {
    forall a | lo <= a < InfoEnd(s[i]) ensures !Place(s, arena, size, a) {
      if candidate <= a { assert !(a + size <= s[i].base || InfoEnd(s[i]) <= a); }
    }
  }

  /** A candidate clear of all regions is taken if it is inside the arena; if not, nothing above it is. */
  method Settle(s: seq<Info>, arena: Option<Arena>, size: U64, candidate: U64, ghost lo: int) returns (r: Option<U64>)
    requires size > 0 && Aligned(candidate, GUEST_PAGE) && MissesAll(s, candidate, size)
             && NoneBelow(s, arena, size, lo, candidate)
    requires lo <= candidate && (arena.Some? ==> arena.value.base <= lo)
    ensures r.Some? ==> r.value == candidate && Place(s, arena, size, candidate)
    ensures r.None? ==> NoneFrom(s, arena, size, lo)
  {
    if InsideArena(arena, candidate, size) { return Some(candidate); }
    return None;
  }

  // ---- Direct memory ----------------------------------------------------

  /** A blocked physical range [lo, hi). Blocked ranges may overlap one another. */
  datatype Range = Range(lo: U64, hi: U64)

  /** Sorted by start, as pairs are; no range is reversed. */
  ghost predicate ByStart(b: seq<Range>) {
    && (forall i :: 0 <= i < |b| ==> b[i].lo <= b[i].hi)
    && (forall i, j :: 0 <= i < j < |b| ==> b[i].lo <= b[j].lo)
  }

  predicate Clear(b: seq<Range>, a: int, size: int) {
    forall i :: 0 <= i < |b| ==> a + size <= b[i].lo || b[i].hi <= a
  }

  /** `a` is an aligned place for `size` bytes in the window [start, end). */
  predicate Spot(b: seq<Range>, start: int, end: int, alignment: int, size: int, a: int)
    requires alignment > 0
  {
    0 <= start <= a && a + size <= end && Aligned(a, alignment) && Clear(b, a, size)
  }

  ghost predicate NoSpot(b: seq<Range>, start: int, end: int, alignment: int, size: int)
    requires alignment > 0
  {
    forall a :: !Spot(b, start, end, alignment, size, a)
  }

  ghost predicate SpotsAbove(b: seq<Range>, start: int, end: int, alignment: int, size: int, c: int)
    requires alignment > 0
  {
    forall a :: Spot(b, start, end, alignment, size, a) ==> c <= a
  }

  lemma SpotsAboveCeil(b: seq<Range>, start: int, end: int, alignment: int, size: int, c: int)
    requires alignment > 0 && 0 <= c && SpotsAbove(b, start, end, alignment, size, c)
    ensures SpotsAbove(b, start, end, alignment, size, Ceil(c, alignment))
  {
    forall a | Spot(b, start, end, alignment, size, a) ensures Ceil(c, alignment) <= a { CeilLeast(c, a, alignment); }
  }

  datatype Search = Found(at: U64) | Exhausted | Overflowed

  /** The search of allocate_direct_memory: the least spot in the window, and failure only if there is none. */
  method FindDirect(b: seq<Range>, start: U64, end: U64, size: U64, alignment: U64) returns (r: Search)
    requires ByStart(b) && start < end && 0 < size <= end - start && alignment > 0
    ensures r.Found? ==> Spot(b, start, end, alignment, size, r.at) && SpotsAbove(b, start, end, alignment, size, r.at)
    ensures !r.Found? ==> NoSpot(b, start, end, alignment, size)
  {
    var candidate: U64 := start;
    for i := 0 to |b|
      invariant start <= candidate && SpotsAbove(b, start, end, alignment, size, candidate)
      invariant forall j :: 0 <= j < i ==> b[j].hi <= candidate || b[j].lo >= end
    {
      if b[i].hi <= start || b[i].lo >= end { continue; }
      var aligned := AlignUpMultiple(candidate, alignment);
      SpotsAboveCeil(b, start, end, alignment, size, candidate);
      CeilBounds(candidate, alignment);
      if aligned.None? { return Overflowed; }
      if aligned.value <= end && size <= end - aligned.value && b[i].lo >= aligned.value
         && size <= b[i].lo - aligned.value {
        CeilIsAligned(candidate, alignment);
        return Found(aligned.value);
      }
      NextSpot(b, start, end, alignment, size, aligned.value, i);
      candidate := if b[i].hi > candidate then b[i].hi else candidate;
    }
    var aligned := AlignUpMultiple(candidate, alignment);
    SpotsAboveCeil(b, start, end, alignment, size, candidate);
    CeilBounds(candidate, alignment);
    CeilIsAligned(candidate, alignment);
    if aligned.Some? && aligned.value <= end && size <= end - aligned.value { return Found(aligned.value); }
    return Exhausted;
  }

  lemma NextSpot(b: seq<Range>, start: int, end: int, alignment: int, size: int, c: int, i: nat)
    requires alignment > 0 && i < |b| && SpotsAbove(b, start, end, alignment, size, c)
    requires !(c + size <= end && c + size <= b[i].lo)
    ensures SpotsAbove(b, start, end, alignment, size, b[i].hi)
  {
  }

  /** Every spot below `c` is at most `best` long. */
  ghost predicate BoundedBelow(b: seq<Range>, start: int, end: int, alignment: int, c: int, best: int)
    requires alignment > 0
  {
    forall a, size :: size > 0 && a < c && Spot(b, start, end, alignment, size, a) ==> size <= best
  }

  /** available_direct_memory: the longest aligned free range of the window. */
  method LongestDirect(b: seq<Range>, start: U64, end: U64, alignment: U64) returns (at: U64, best: U64)
    requires ByStart(b) && start < end && alignment > 0
    ensures best > 0 ==> Spot(b, start, end, alignment, best, at)
    ensures forall a, size :: size > 0 && Spot(b, start, end, alignment, size, a) ==> size <= best
  {
    at, best := 0, 0;
    var cursor: U64 := start;
    var i := 0;
    while i < |b| && cursor < end
      invariant i <= |b| && start <= cursor <= end && (best > 0 ==> Spot(b, start, end, alignment, best, at))
      invariant BoundedBelow(b, start, end, alignment, cursor, best)
      invariant forall j :: 0 <= j < i ==> b[j].hi <= cursor || b[j].lo >= end || cursor == end
    {
      if !(b[i].hi <= start || b[i].lo >= end) {
        var lo, hi := if b[i].lo > start then b[i].lo else start, if b[i].hi < end then b[i].hi else end;
        if lo > cursor { at, best := ConsiderGap(b, start, end, alignment, cursor, lo, i, at, best); }
        SpansBlocked(b, start, end, alignment, cursor, i, best);
        cursor := if hi > cursor then hi else cursor;
      }
      i := i + 1;
    }
    if cursor < end { at, best := ConsiderGap(b, start, end, alignment, cursor, end, |b|, at, best); }
  }

  /** A gap [lo, hi) that ends at blocked range `i` or at the end of the window. */
  method ConsiderGap(b: seq<Range>, start: U64, end: U64, alignment: U64, lo: U64, hi: U64, ghost i: nat, at: U64,
                     best: U64)
    returns (at': U64, best': U64)
    requires ByStart(b) && alignment > 0 && start <= lo < hi <= end && i <= |b|
    requires forall j :: 0 <= j < i ==> b[j].hi <= lo || b[j].lo >= end
    requires if i < |b| then hi == b[i].lo else hi == end
    requires best > 0 ==> Spot(b, start, end, alignment, best, at)
    requires BoundedBelow(b, start, end, alignment, lo, best)
    ensures best' > 0 ==> Spot(b, start, end, alignment, best', at')
    ensures best' >= best && BoundedBelow(b, start, end, alignment, hi, best')
  {
    at', best' := at, best;
    var aligned := AlignUpMultiple(lo, alignment);
    CeilBounds(lo, alignment);
    CeilIsAligned(lo, alignment);
    forall a | lo <= a && Aligned(a, alignment) ensures Ceil(lo, alignment) <= a { CeilLeast(lo, a, alignment); }
    if aligned.None? || aligned.value >= hi { return; }
    if hi - aligned.value > best { at', best' := aligned.value, hi - aligned.value; }
  }

  lemma SpansBlocked(b: seq<Range>, start: int, end: int, alignment: int, cursor: int, i: nat, best: int)
    requires alignment > 0 && i < |b|
    requires BoundedBelow(b, start, end, alignment, if b[i].lo > cursor then b[i].lo else cursor, best)
    ensures BoundedBelow(b, start, end, alignment, if b[i].hi > cursor then b[i].hi else cursor, best)
  {
  }

  /** Allocation succeeds for exactly the sizes that the longest free range can hold. */
  lemma AllocatesIffAvailable(b: seq<Range>, start: int, end: int, alignment: int, size: int, at: int, best: int)
    requires alignment > 0 && size > 0 && best >= 0
    requires best > 0 ==> Spot(b, start, end, alignment, best, at)
    requires forall a, s :: s > 0 && Spot(b, start, end, alignment, s, a) ==> s <= best
    ensures !NoSpot(b, start, end, alignment, size) <==> size <= best
  {
    if size <= best { assert Spot(b, start, end, alignment, size, at); }
  }

  /** The two calls agree: for the same blocked ranges, window and alignment, a size is found iff it is available. */
  method AllocateAgreesWithAvailable(b: seq<Range>, start: U64, end: U64, size: U64, alignment: U64)
    returns (found: bool, best: U64)
    requires ByStart(b) && start < end && 0 < size && alignment > 0
    ensures found <==> size <= best
  {
    var at;
    at, best := LongestDirect(b, start, end, alignment);
    AllocatesIffAvailable(b, start, end, alignment, size, at, best);
    if size > end - start { return false, best; }
    var r := FindDirect(b, start, end, size, alignment);
    found := r.Found?;
  }
}
