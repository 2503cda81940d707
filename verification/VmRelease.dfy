/** What stands in the way of releasing direct memory. */
module VmRelease {
  import opened Base
  import opened Align
  import opened Regions
  import opened HostPages
  import opened Removals
  import opened AddressSpace
  import opened VmSearch
  import opened DirectMemory
  import opened VmState
  import opened VmScans

  /** Something other than direct memory is mapped at a canonical address of the allocated part of [lo, hi). */
  ghost predicate Foreign(rs: Table, al: seq<Alloc>, base: int, lo: int, hi: int) {
    exists a, c :: Has(rs, a, c) && c.kind != Direct && lo <= a - base < hi && Allocated(al, a - base)
  }

  /** Only direct memory is mapped at the canonical addresses of the segments. */
  ghost predicate DirectOver(rs: Table, segs: seq<Range>, base: int) {
    forall a, c :: Has(rs, a, c) && InSegs(segs, a - base) ==> c.kind == Direct
  }

  /** A region over a segment is direct memory at its canonical place, if all that is mapped there is direct. */
  lemma OverSegment(rs: Table, native: bool, l: Layout, al: seq<Alloc>, segs: seq<Range>, j: nat, k: int)
    requires Valid(rs, native) && DirectOk(rs, l, al) && DirectOver(rs, segs, l.base) && j < |segs| && k in rs
    requires segs[j].lo < segs[j].hi && k < l.base + segs[j].hi && l.base + segs[j].lo < End(rs[k])
    ensures rs[k].info.kind == Direct && l.base <= k && rs[k].info.offset == k - l.base
  {
    var a := if k < l.base + segs[j].lo then l.base + segs[j].lo else k;
    var c, d := CellOf(rs[k], a), CellOf(rs[k], k);
    assert CellAt(rs[k], a, c) && Has(rs, a, c);
    assert InSegs(segs, a - l.base);
    assert CellAt(rs[k], k, d) && Has(rs, k, d) && d.kind == Direct;
  }

  /** The listed region is direct memory at its canonical place. */
  predicate AtHome(i: Info, base: int) { i.kind == Direct && base <= i.base && i.offset == i.base - base }

  /** Every listed region over the segments is. */
  ghost predicate AllAtHome(s: seq<Info>, segs: seq<Range>, base: int) {
    forall j, i :: 0 <= j < |segs| && 0 <= i < |s| && Overlaps(s[i], base + segs[j].lo, base + segs[j].hi)
      ==> AtHome(s[i], base)
  }

  lemma DirectAtHome(rs: Table, native: bool, s: seq<Info>, l: Layout, al: seq<Alloc>, segs: seq<Range>)
    requires Valid(rs, native) && Listing(rs, s) && DirectOk(rs, l, al) && DirectOver(rs, segs, l.base)
    requires forall j :: 0 <= j < |segs| ==> segs[j].lo < segs[j].hi
    ensures AllAtHome(s, segs, l.base)
  {
    forall j, i | 0 <= j < |segs| && 0 <= i < |s| && Overlaps(s[i], l.base + segs[j].lo, l.base + segs[j].hi)
      ensures AtHome(s[i], l.base)
    {
      OverSegment(rs, native, l, al, segs, j, s[i].base);
    }
  }

  lemma AtHomeDirect(rs: Table, native: bool, s: seq<Info>, segs: seq<Range>, base: int)
    requires Valid(rs, native) && Listing(rs, s) && AllAtHome(s, segs, base)
    ensures DirectOver(rs, segs, base)
  {
    forall a, c | Has(rs, a, c) && InSegs(segs, a - base) ensures c.kind == Direct {
      var k: int :| k in rs && CellAt(rs[k], a, c);
      var i :| 0 <= i < |s| && s[i].base == k;
      var j :| 0 <= j < |segs| && segs[j].lo <= a - base < segs[j].hi;
      assert Overlaps(s[i], base + segs[j].lo, base + segs[j].hi);
    }
  }

  lemma DirectOverIs(rs: Table, al: seq<Alloc>, segs: seq<Range>, base: int, lo: int, hi: int)
    requires forall a :: InSegs(segs, a) <==> Allocated(al, a) && lo <= a < hi
    ensures DirectOver(rs, segs, base) <==> !Foreign(rs, al, base, lo, hi)
  {
    if Foreign(rs, al, base, lo, hi) {
      var a, c :| Has(rs, a, c) && c.kind != Direct && lo <= a - base < hi && Allocated(al, a - base);
      assert InSegs(segs, a - base);
    } else {
      forall a, c | Has(rs, a, c) && InSegs(segs, a - base) ensures c.kind == Direct {
        assert Allocated(al, a - base) && lo <= a - base < hi;
      }
    }
  }

  /** Direct memory comes in whole host pages too, if these divide guest pages. */
  lemma DirectEndsWhole(rs: Table, n: Arena, page: U64, k: int)
    requires page > 0 && Valid(rs, true) && Placed(rs, n, page) && DirectWhole(rs) && Aligned(GUEST_PAGE, page)
    requires k in rs && rs[k].info.kind == Direct
    ensures Aligned(End(rs[k]), page)
  {
    var e := End(rs[k]);
    var c := CellOf(rs[k], e - 1);
    assert CellAt(rs[k], e - 1, c) && Has(rs, e - 1, c);
    if e % GUEST_PAGE == 0 {
      AlignedMod(e, GUEST_PAGE);
      AlignedCoarse(e, GUEST_PAGE, page);
    } else {
      assert SamePage(e - 1, e) && DirectAt(rs, e - 1);
      assert DirectAt(rs, e);
      var d :| Has(rs, e, d) && d.kind == Direct;
      var j :| j in rs && CellAt(rs[j], e, d);
      assert j == e;
    }
  }

  lemma DirectMetOnPages(rs: Table, n: Arena, page: U64, lo: int, hi: int)
    requires page > 0 && Valid(rs, true) && Placed(rs, n, page) && DirectWhole(rs) && Aligned(GUEST_PAGE, page)
    requires 0 <= lo <= hi && Aligned(lo, GUEST_PAGE) && Aligned(hi, GUEST_PAGE)
    requires forall k :: k in rs && Meets(rs[k], lo, hi) ==> rs[k].info.kind == Direct
    ensures MetOnPages(rs, lo, hi, n, page)
  {
    AlignedCoarse(lo, GUEST_PAGE, page);
    AlignedCoarse(hi, GUEST_PAGE, page);
    forall k | k in rs && Meets(rs[k], lo, hi) ensures PartOnPages(rs[k], lo, hi, n, page) {
      DirectEndsWhole(rs, n, page, k);
      var part := RemovalOf(rs[k], lo, hi);
      AlignedRest(part.lo, part.hi, page);
    }
  }
}
