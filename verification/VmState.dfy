/** What every virtual-memory call keeps: the direct and flexible regions against their books. */
module VmState {
  import opened Base
  import opened Align
  import opened Regions
  import opened HostPages
  import opened VmSearch
  import opened DirectMemory

  /** The managed window: direct memory first, then `flex` bytes of flexible memory. */
  datatype Layout = Layout(base: U64, size: U64, flex: U64)

  function DirectCap(l: Layout): int { l.size - l.flex }
  function FlexBase(l: Layout): int { l.base + DirectCap(l) }
  function FlexEnd(l: Layout): int { l.base + l.size }

  ghost predicate GoodLayout(l: Layout) {
    && l.flex <= l.size && l.base + l.size <= U64_MAX
    && Aligned(l.base, GUEST_PAGE) && Aligned(l.size, GUEST_PAGE) && Aligned(l.flex, GUEST_PAGE)
  }

  /** A direct address sits at its canonical place and is allocated with its memory type. */
  ghost predicate DirectOk(rs: Table, l: Layout, al: seq<Alloc>) {
    forall a, c :: Has(rs, a, c) && c.kind == Direct ==> Canonical(l, al, a, c)
  }

  ghost predicate Canonical(l: Layout, al: seq<Alloc>, a: int, c: Cell) {
    l.base <= a && c.offset == a - l.base && AllocAt(al, a - l.base, c.memoryType)
  }

  ghost predicate DirectAt(rs: Table, a: int) { exists c :: Has(rs, a, c) && c.kind == Direct }

  predicate SamePage(a: int, b: int) { a / GUEST_PAGE == b / GUEST_PAGE }

  /** Direct memory comes in whole guest pages. */
  ghost predicate DirectWhole(rs: Table) {
    forall a, b :: SamePage(a, b) && DirectAt(rs, a) ==> DirectAt(rs, b)
  }

  /** Guest pages, or no direct memory at all. */
  ghost predicate CutsWhole(rs: Table, lo: int, hi: int) {
    (Aligned(lo, GUEST_PAGE) && Aligned(hi, GUEST_PAGE)) || forall a :: lo <= a < hi ==> !DirectAt(rs, a)
  }

  /** Flexible addresses lie in the flexible window. */
  ghost predicate FlexOk(rs: Table, l: Layout) {
    forall a, c :: Has(rs, a, c) && c.kind == Flexible ==> FlexBase(l) <= a < FlexEnd(l)
  }

  ghost predicate FlexAt(rs: Table, a: int) { exists c :: Has(rs, a, c) && c.kind == Flexible }

  /** How many flexible addresses [lo, hi) holds. */
  ghost function Count(rs: Table, lo: int, hi: int): (n: nat)
    decreases rs, hi - lo
  {
    if hi <= lo then 0 else Count(rs, lo, hi - 1) + (if FlexAt(rs, hi - 1) then 1 else 0)
  }

  ghost function Total(rs: Table): nat { Count(rs, 0, TWO64) }

  ghost predicate Books(rs: Table, l: Layout, al: seq<Alloc>, used: int) {
    && GoodLayout(l) && ValidAllocs(al, DirectCap(l)) && DirectOk(rs, l, al) && DirectWhole(rs) && FlexOk(rs, l)
    && used == Total(rs)
  }

  // ---- Counting ---------------------------------------------------------

  lemma {:induction false} CountSplit(rs: Table, lo: int, mid: int, hi: int)
    requires lo <= mid <= hi
    ensures Count(rs, lo, hi) == Count(rs, lo, mid) + Count(rs, mid, hi)
    decreases hi - mid
  {
    if mid < hi { CountSplit(rs, lo, mid, hi - 1); }
  }

  lemma {:induction false} CountSame(rs: Table, rs': Table, lo: int, hi: int)
    requires forall a :: lo <= a < hi ==> (FlexAt(rs, a) <==> FlexAt(rs', a))
    ensures Count(rs, lo, hi) == Count(rs', lo, hi)
    decreases hi - lo
  {
    if lo < hi { CountSame(rs, rs', lo, hi - 1); }
  }

  lemma {:induction false} CountNone(rs: Table, lo: int, hi: int)
    requires forall a :: lo <= a < hi ==> !FlexAt(rs, a)
    ensures Count(rs, lo, hi) == 0
    decreases hi - lo
  {
    if lo < hi { CountNone(rs, lo, hi - 1); }
  }

  lemma {:induction false} CountAll(rs: Table, lo: int, hi: int)
    requires lo <= hi && forall a :: lo <= a < hi ==> FlexAt(rs, a)
    ensures Count(rs, lo, hi) == hi - lo
    decreases hi - lo
  {
    if lo < hi { CountAll(rs, lo, hi - 1); }
  }

  lemma {:induction false} CountAtMost(rs: Table, lo: int, hi: int)
    requires lo <= hi
    ensures Count(rs, lo, hi) <= hi - lo
    decreases hi - lo
  {
    if lo < hi { CountAtMost(rs, lo, hi - 1); }
  }

  lemma TotalSplit(rs: Table, lo: int, hi: int)
    requires 0 <= lo <= hi <= TWO64
    ensures Total(rs) == Count(rs, 0, lo) + Count(rs, lo, hi) + Count(rs, hi, TWO64)
  {
    CountSplit(rs, 0, lo, TWO64);
    CountSplit(rs, lo, hi, TWO64);
  }

  /** Flexible memory in use never exceeds its capacity. */
  lemma UsedAtMostCapacity(rs: Table, l: Layout)
    requires GoodLayout(l) && FlexOk(rs, l)
    ensures Total(rs) <= l.flex
  {
    var lo, hi := FlexBase(l), FlexEnd(l);
    TotalSplit(rs, lo, hi);
    CountNone(rs, 0, lo);
    CountNone(rs, hi, TWO64);
    CountAtMost(rs, lo, hi);
  }

  // ---- The books under each change of the table -------------------------

  lemma AfterRemove(rs: Table, rs': Table, l: Layout, al: seq<Alloc>, lo: int, hi: int)
    requires Removed(rs, rs', lo, hi) && 0 <= lo <= hi <= TWO64
    ensures DirectOk(rs, l, al) ==> DirectOk(rs', l, al)
    ensures FlexOk(rs, l) ==> FlexOk(rs', l)
    ensures Total(rs') == Total(rs) - Count(rs, lo, hi)
  {
    forall a ensures FlexAt(rs', a) <==> FlexAt(rs, a) && !(lo <= a < hi) {
      if FlexAt(rs, a) && !(lo <= a < hi) {
        var c :| Has(rs, a, c) && c.kind == Flexible;
        assert Has(rs', a, c);
      }
      if FlexAt(rs', a) {
        var c :| Has(rs', a, c) && c.kind == Flexible;
        assert Has(rs, a, c);
      }
    }
    TotalSplit(rs, lo, hi);
    TotalSplit(rs', lo, hi);
    CountSame(rs, rs', 0, lo);
    CountSame(rs, rs', hi, TWO64);
    CountNone(rs', lo, hi);
  }

  /** Whole pages are inside a range of whole pages, or outside. */
  lemma PageSides(lo: int, hi: int, a: int, b: int)
    requires 0 <= lo <= hi && Aligned(lo, GUEST_PAGE) && Aligned(hi, GUEST_PAGE) && SamePage(a, b)
    ensures lo <= a < hi <==> lo <= b < hi
  {
    AlignedMod(lo, GUEST_PAGE);
    AlignedMod(hi, GUEST_PAGE);
  }

  lemma WholeAfterRemove(rs: Table, rs': Table, lo: int, hi: int)
    requires Removed(rs, rs', lo, hi) && 0 <= lo <= hi && DirectWhole(rs) && CutsWhole(rs, lo, hi)
    ensures DirectWhole(rs')
  {
    forall a ensures DirectAt(rs', a) <==> DirectAt(rs, a) && !(lo <= a < hi) {
      if DirectAt(rs, a) && !(lo <= a < hi) {
        var c :| Has(rs, a, c) && c.kind == Direct;
        assert Has(rs', a, c);
      }
      if DirectAt(rs', a) {
        var c :| Has(rs', a, c) && c.kind == Direct;
        assert Has(rs, a, c);
      }
    }
    forall a, b | SamePage(a, b) && DirectAt(rs', a) ensures DirectAt(rs', b) {
      if Aligned(lo, GUEST_PAGE) && Aligned(hi, GUEST_PAGE) { PageSides(lo, hi, a, b); }
    }
  }

  lemma AddedDirect(rs: Table, rs': Table, r: Region, a: int)
    requires Added(rs, rs', r) && End(r) <= U64_MAX
    ensures DirectAt(rs', a) <==> DirectAt(rs, a) || (Covers(r, a) && r.info.kind == Direct)
  {
    if DirectAt(rs, a) {
      var c :| Has(rs, a, c) && c.kind == Direct;
      assert Has(rs', a, c);
    }
    if Covers(r, a) && r.info.kind == Direct {
      assert CellAt(r, a, CellOf(r, a)) && Has(rs', a, CellOf(r, a));
    }
    if DirectAt(rs', a) {
      var c :| Has(rs', a, c) && c.kind == Direct;
      assert Has(rs, a, c) || CellAt(r, a, c);
    }
  }

  lemma WholeAfterAdd(rs: Table, rs': Table, r: Region)
    requires Added(rs, rs', r) && End(r) <= U64_MAX && 0 <= r.info.base && 0 < r.info.size && DirectWhole(rs)
    requires r.info.kind == Direct ==> Aligned(r.info.base, GUEST_PAGE) && Aligned(r.info.size, GUEST_PAGE)
    ensures DirectWhole(rs')
  {
    forall a, b | SamePage(a, b) && DirectAt(rs', a) ensures DirectAt(rs', b) {
      AddedDirect(rs, rs', r, a);
      AddedDirect(rs, rs', r, b);
      if r.info.kind == Direct {
        AlignedSum(r.info.base, r.info.size, GUEST_PAGE);
        PageSides(r.info.base, End(r), a, b);
      }
    }
  }

  lemma WholeAfterSameBut(rs: Table, rs': Table)
    requires SameBut(rs, rs') && DirectWhole(rs)
    ensures DirectWhole(rs')
  {
    forall a ensures DirectAt(rs, a) <==> DirectAt(rs', a) {
      if DirectAt(rs, a) {
        var c :| Has(rs, a, c) && c.kind == Direct;
        assert Sees(rs, a, Direct, c.offset, c.memoryType);
      }
      if DirectAt(rs', a) {
        var c :| Has(rs', a, c) && c.kind == Direct;
        assert Sees(rs', a, Direct, c.offset, c.memoryType);
      }
    }
  }

  lemma FreeNotFlex(rs: Table, lo: int, hi: int, a: int)
    requires Free(rs, lo, hi) && lo <= a < hi
    ensures !FlexAt(rs, a)
  {
    assert forall k :: k in rs ==> !Covers(rs[k], a);
  }

  lemma AddedFlex(rs: Table, rs': Table, r: Region, a: int)
    requires Added(rs, rs', r) && End(r) <= U64_MAX
    ensures FlexAt(rs', a) <==> FlexAt(rs, a) || (Covers(r, a) && r.info.kind == Flexible)
  {
    if FlexAt(rs, a) {
      var c :| Has(rs, a, c) && c.kind == Flexible;
      assert Has(rs', a, c);
    }
    if Covers(r, a) && r.info.kind == Flexible {
      assert CellAt(r, a, CellOf(r, a)) && Has(rs', a, CellOf(r, a));
    }
    if FlexAt(rs', a) {
      var c :| Has(rs', a, c) && c.kind == Flexible;
      assert Has(rs, a, c) || CellAt(r, a, c);
    }
  }

  /** A new region of another kind changes no book; a flexible one adds its size to the count. */
  lemma AfterAdd(rs: Table, rs': Table, r: Region, l: Layout, al: seq<Alloc>)
    requires Added(rs, rs', r) && Free(rs, r.info.base, End(r)) && 0 < r.info.size && End(r) <= U64_MAX
    ensures DirectOk(rs, l, al)
            && (r.info.kind == Direct ==> forall a :: Covers(r, a) ==> Canonical(l, al, a, CellOf(r, a)))
            ==> DirectOk(rs', l, al)
    ensures FlexOk(rs, l) && (r.info.kind == Flexible ==> FlexBase(l) <= r.info.base && End(r) <= FlexEnd(l)) ==>
              FlexOk(rs', l)
    ensures Total(rs') == Total(rs) + if r.info.kind == Flexible then r.info.size else 0
  {
    var lo, hi := r.info.base, End(r);
    forall a ensures FlexAt(rs', a) <==> FlexAt(rs, a) || (Covers(r, a) && r.info.kind == Flexible) {
      AddedFlex(rs, rs', r, a);
    }
    forall a | lo <= a < hi ensures !FlexAt(rs, a) { FreeNotFlex(rs, lo, hi, a); }
    TotalSplit(rs, lo, hi);
    TotalSplit(rs', lo, hi);
    CountSame(rs, rs', 0, lo);
    CountSame(rs, rs', hi, TWO64);
    CountNone(rs, lo, hi);
    if r.info.kind == Flexible { CountAll(rs', lo, hi); } else { CountNone(rs', lo, hi); }
  }

  /** Address `a` is mapped with this kind, offset and memory type. */
  ghost predicate Sees(rs: Table, a: int, k: Kind, o: U64, t: int) {
    exists c :: Has(rs, a, c) && c.kind == k && c.offset == o && c.memoryType == t
  }

  /** Two tables that agree but for protections, names and bytes. */
  ghost predicate SameBut(rs: Table, rs': Table) {
    forall a, k, o, t :: Sees(rs, a, k, o, t) <==> Sees(rs', a, k, o, t)
  }

  lemma SameButDirect(rs: Table, rs': Table, l: Layout, al: seq<Alloc>)
    requires SameBut(rs, rs') && DirectOk(rs, l, al)
    ensures DirectOk(rs', l, al)
  {
    forall a, c | Has(rs', a, c) && c.kind == Direct ensures Canonical(l, al, a, c) {
      assert Sees(rs', a, Direct, c.offset, c.memoryType);
    }
  }

  lemma SameButFlex(rs: Table, rs': Table, a: int)
    requires SameBut(rs, rs') && FlexAt(rs, a)
    ensures FlexAt(rs', a)
  {
    var c :| Has(rs, a, c) && c.kind == Flexible;
    assert Sees(rs, a, Flexible, c.offset, c.memoryType);
  }

  lemma SameButWindow(rs: Table, rs': Table, l: Layout)
    requires SameBut(rs, rs') && FlexOk(rs, l)
    ensures FlexOk(rs', l)
  {
    forall a, c | Has(rs', a, c) && c.kind == Flexible ensures FlexBase(l) <= a < FlexEnd(l) {
      assert Sees(rs', a, Flexible, c.offset, c.memoryType);
    }
  }

  lemma AfterSameBut(rs: Table, rs': Table, l: Layout, al: seq<Alloc>)
    requires SameBut(rs, rs')
    ensures DirectOk(rs, l, al) ==> DirectOk(rs', l, al)
    ensures FlexOk(rs, l) ==> FlexOk(rs', l)
    ensures Total(rs') == Total(rs)
  {
    forall a ensures FlexAt(rs, a) <==> FlexAt(rs', a) {
      if FlexAt(rs, a) { SameButFlex(rs, rs', a); }
      if FlexAt(rs', a) { SameButFlex(rs', rs, a); }
    }
    CountSame(rs, rs', 0, TWO64);
    if DirectOk(rs, l, al) { SameButDirect(rs, rs', l, al); }
    if FlexOk(rs, l) { SameButWindow(rs, rs', l); }
  }

  lemma ReprotectedSees(rs: Table, rs': Table, lo: int, hi: int, p: Prot, native: bool, a: int, c: Cell)
    requires Valid(rs, native) && Valid(rs', native) && Reprotected(rs, rs', lo, hi, p) && Has(rs', a, c)
    ensures Sees(rs, a, c.kind, c.offset, c.memoryType)
  {
    var k :| k in rs' && CellAt(rs'[k], a, c);
    assert Mapped(rs', a) && Mapped(rs, a);
    var j :| j in rs && Covers(rs[j], a);
    var d := CellOf(rs[j], a);
    assert CellAt(rs[j], a, d) && Has(rs, a, d);
    OneCell(rs', native, a, c, if lo <= a < hi then d.(prot := p) else d);
  }

  lemma ReprotectedSameBut(rs: Table, rs': Table, lo: int, hi: int, p: Prot, native: bool)
    requires Valid(rs, native) && Valid(rs', native) && Reprotected(rs, rs', lo, hi, p)
    ensures SameBut(rs, rs')
  {
    forall a, k, o, t ensures Sees(rs, a, k, o, t) <==> Sees(rs', a, k, o, t) {
      if Sees(rs, a, k, o, t) {
        var d :| Has(rs, a, d) && d.kind == k && d.offset == o && d.memoryType == t;
        assert Has(rs', a, if lo <= a < hi then d.(prot := p) else d);
      }
      if Sees(rs', a, k, o, t) {
        var c :| Has(rs', a, c) && c.kind == k && c.offset == o && c.memoryType == t;
        ReprotectedSees(rs, rs', lo, hi, p, native, a, c);
      }
    }
  }

  lemma SameInfosSees(rs: Table, rs': Table, a: int, k: Kind, o: U64, t: int)
    requires SameInfos(rs, rs') && Sees(rs, a, k, o, t)
    ensures Sees(rs', a, k, o, t)
  {
    var c :| Has(rs, a, c) && c.kind == k && c.offset == o && c.memoryType == t;
    var j :| j in rs && CellAt(rs[j], a, c);
    assert j in rs' && CellAt(rs'[j], a, CellOf(rs'[j], a)) && Has(rs', a, CellOf(rs'[j], a));
  }

  lemma SameInfosSameBut(rs: Table, rs': Table)
    requires SameInfos(rs, rs')
    ensures SameBut(rs, rs')
  {
    forall a, k, o, t ensures Sees(rs, a, k, o, t) <==> Sees(rs', a, k, o, t) {
      if Sees(rs, a, k, o, t) { SameInfosSees(rs, rs', a, k, o, t); }
      if Sees(rs', a, k, o, t) { SameInfosSees(rs', rs, a, k, o, t); }
    }
  }

  // ---- Whole books ------------------------------------------------------

  lemma BooksAfterRemove(rs: Table, rs': Table, l: Layout, al: seq<Alloc>, used: int, lo: int, hi: int, gone: int)
    requires Books(rs, l, al, used) && Removed(rs, rs', lo, hi) && 0 <= lo <= hi <= TWO64 && gone == Count(rs, lo, hi)
    requires CutsWhole(rs, lo, hi)
    ensures gone <= used && Books(rs', l, al, used - gone)
  {
    WholeAfterRemove(rs, rs', lo, hi);
    AfterRemove(rs, rs', l, al, lo, hi);
  }

  /** Returning the flexible bytes of a range that was taken out balances the books. */
  lemma BooksAfterRelease(rs: Table, rs': Table, l: Layout, al: seq<Alloc>, used: int, left: int, lo: int, hi: int,
                          gone: int)
    requires Books(rs, l, al, used) && Removed(rs, rs', lo, hi) && 0 <= lo <= hi <= TWO64 && gone == Count(rs, lo, hi)
    requires left == used - (if used < gone then used else gone) && CutsWhole(rs, lo, hi)
    ensures Books(rs', l, al, left)
  {
    BooksAfterRemove(rs, rs', l, al, used, lo, hi, gone);
  }

  lemma BooksAfterAdd(rs: Table, rs': Table, r: Region, l: Layout, al: seq<Alloc>, used: int)
    requires Books(rs, l, al, used) && Added(rs, rs', r) && Free(rs, r.info.base, End(r)) && 0 < r.info.size
             && End(r) <= U64_MAX
    requires r.info.kind == Direct ==> forall a :: Covers(r, a) ==> Canonical(l, al, a, CellOf(r, a))
    requires r.info.kind == Direct ==> Aligned(r.info.base, GUEST_PAGE) && Aligned(r.info.size, GUEST_PAGE)
    requires r.info.kind == Flexible ==> FlexBase(l) <= r.info.base && End(r) <= FlexEnd(l)
    ensures Books(rs', l, al, used + if r.info.kind == Flexible then r.info.size else 0)
  {
    AfterAdd(rs, rs', r, l, al);
    WholeAfterAdd(rs, rs', r);
  }

  lemma BooksAfterSameBut(rs: Table, rs': Table, l: Layout, al: seq<Alloc>, used: int)
    requires Books(rs, l, al, used) && SameBut(rs, rs')
    ensures Books(rs', l, al, used)
  {
    AfterSameBut(rs, rs', l, al);
    WholeAfterSameBut(rs, rs');
  }

  lemma BooksEmpty(l: Layout)
    requires GoodLayout(l)
    ensures Books(map[], l, [], 0)
  {
    CountNone(map[], 0, TWO64);
  }

  /** The books bound the flexible memory in use and keep flexible and direct addresses apart. */
  lemma BooksBound(rs: Table, l: Layout, al: seq<Alloc>, used: int, a: int, c: Cell)
    requires Books(rs, l, al, used) && Has(rs, a, c)
    ensures used <= l.flex
    ensures c.kind == Direct ==> l.base <= a < FlexBase(l)
    ensures c.kind == Flexible ==> FlexBase(l) <= a < FlexEnd(l)
  {
    UsedAtMostCapacity(rs, l);
    if c.kind == Direct {
      var i :| 0 <= i < |al| && Holds(al[i], a - l.base) && al[i].memoryType == c.memoryType;
      assert FitAlloc(al[i], DirectCap(l));
    }
  }
}
