/** The guest's virtual-memory calls over the address space, with their allocation and accounting books. */
module VmServices {
  import opened Base
  import opened Align
  import opened Regions
  import opened HostPages
  import opened AddressSpace
  import opened VmSearch
  import opened DirectMemory
  import opened VmState
  import opened VmScans
  import opened VmFrames
  import opened VmRelease

  datatype Status = Done | Fail(code: int)

  /** A guest protection word: processor bits, the accelerator bits 0x30, and whether other bits are set. */
  datatype GuestProt = GuestProt(read: bool, write: bool, exec: bool, accel: int, unknown: bool)

  /** Writable implies readable on the host. */
  function CpuProtection(g: GuestProt): Option<Prot> {
    if g.unknown then None else Some(Prot(g.read || g.write, g.write, g.exec))
  }

  /** Little-endian words. */
  function ToLe(v: int, n: nat): (s: seq<Byte>)
    requires 0 <= v
    ensures |s| == n
  {
    if n == 0 then [] else [v % 256] + ToLe(v / 256, n - 1)
  }

  function FromLe(s: seq<Byte>): nat {
    if s == [] then 0 else s[0] + 256 * FromLe(s[1..])
  }

  function Pow256(n: nat): nat { if n == 0 then 1 else 256 * Pow256(n - 1) }

  lemma {:induction false} FromLeBelow(s: seq<Byte>)
    ensures FromLe(s) < Pow256(|s|)
  {
    if s != [] { FromLeBelow(s[1..]); }
  }

  lemma FromLeBound(s: seq<Byte>)
    requires |s| == 8
    ensures FromLe(s) <= U64_MAX
  {
    FromLeBelow(s);
    assert Pow256(8) == 0x1_0000_0000 * Pow256(4) && Pow256(4) == 0x1_0000_0000;
  }

  /** A word that was read is the word that is there. */
  lemma {:induction false} LeRoundTrip(s: seq<Byte>)
    ensures ToLe(FromLe(s), |s|) == s
  {
    if s != [] { LeRoundTrip(s[1..]); }
  }

  lemma ReadsWord(rs: Table, native: bool, bytes: int -> Byte, a: int, s: seq<Byte>)
    requires |s| == 8 && Stored(rs, native, bytes, a, s)
    ensures FromLe(s) <= U64_MAX && Stored(rs, native, bytes, a, ToLe(FromLe(s), 8))
  {
    FromLeBound(s);
    LeRoundTrip(s);
  }

  datatype Span = Span(lo: int, hi: int)

  lemma PageSpan(address: U64, size: U64, lo: int, hi: int)
    requires lo == Floor(address, GUEST_PAGE) && hi == lo + Ceil(size, GUEST_PAGE)
    ensures Aligned(lo, GUEST_PAGE) && Aligned(hi, GUEST_PAGE)
  {
    FloorIsAligned(address, GUEST_PAGE);
    CeilIsAligned(size, GUEST_PAGE);
    CeilBounds(size, GUEST_PAGE);
    AlignedSum(Floor(address, GUEST_PAGE), Ceil(size, GUEST_PAGE), GUEST_PAGE);
  }

  /** The guest pages that hold [address, address + size), unless the sum overflows. */
  function PagesOf(address: U64, size: U64): (s: Option<Span>)
    requires size > 0
    ensures s.Some? ==> 0 <= s.value.lo <= address && address + size <= s.value.hi
    ensures s.Some? ==> Aligned(s.value.lo, GUEST_PAGE) && Aligned(s.value.hi, GUEST_PAGE)
    ensures s.Some? ==> address - s.value.lo < GUEST_PAGE && s.value.hi - (address + size) < GUEST_PAGE
    ensures s.None? <==> size + (address - Floor(address, GUEST_PAGE)) + (GUEST_PAGE - 1) > U64_MAX
  {
    var lo: U64 := Floor(address, GUEST_PAGE);
    FloorIsAligned(address, GUEST_PAGE);
    if size > U64_MAX - (address - lo) then None
    else match CheckedAlignUp(size + (address - lo), GUEST_PAGE)
      case None => None
      case Some(n) =>
        CeilBounds(size + (address - lo), GUEST_PAGE);
        CeilIsAligned(size + (address - lo), GUEST_PAGE);
        AlignedSum(lo, n, GUEST_PAGE);
        Some(Span(lo, lo + n))
  }

  /** A guest page of [lo, hi). */
  predicate PageOf(lo: int, hi: int, a: int) { Aligned(a, GUEST_PAGE) && lo <= a && a + GUEST_PAGE <= hi }

  predicate ArenaPage(arena: Option<Arena>, a: int) {
    arena.Some? && PageOf(arena.value.base, ArenaEnd(arena.value), a)
  }

  /** [lo, hi) consists of exactly the guest pages of the arena. */
  ghost predicate PagesOfArena(arena: Option<Arena>, lo: int, hi: int) {
    forall a :: PageOf(lo, hi, a) <==> ArenaPage(arena, a)
  }

  lemma SamePages(lo: U64, hi: U64, from: int, n: int, a: int)
    requires from == Ceil(lo, GUEST_PAGE) && from <= hi && n == Floor(hi - from, GUEST_PAGE)
    ensures PageOf(from, from + n, a) <==> PageOf(lo, hi, a)
  {
    CeilMod(lo, GUEST_PAGE);
    FloorDiv(hi - from, GUEST_PAGE);
    if a >= 0 { AlignedMod(a, GUEST_PAGE); }
  }

  lemma NoPages(lo: U64, hi: U64, a: int)
    requires hi <= Ceil(lo, GUEST_PAGE) || lo + (GUEST_PAGE - 1) > U64_MAX
    ensures !PageOf(lo, hi, a)
  {
    CeilMod(lo, GUEST_PAGE);
    if a >= 0 { AlignedMod(a, GUEST_PAGE); }
  }

  /** The whole guest pages of a native arena; nothing in a buffered space. */
  method ManagedWindow(arena: Option<Arena>) returns (w: Layout)
    requires arena.Some? ==> 0 < arena.value.base && ArenaEnd(arena.value) <= U64_MAX
    ensures GoodLayout(w) && w.flex == 0 && (arena.None? ==> w.size == 0)
    ensures w.size > 0 ==> arena.value.base <= w.base && w.base + w.size <= ArenaEnd(arena.value)
    ensures PagesOfArena(arena, w.base, w.base + w.size)
  {
    w := Layout(0, 0, 0);
    if arena.Some? {
      var aligned := CheckedAlignUp(arena.value.base, GUEST_PAGE);
      if aligned.Some? && aligned.value < ArenaEnd(arena.value) {
        var room := ArenaEnd(arena.value) - aligned.value;
        CeilBounds(arena.value.base, GUEST_PAGE);
        CeilIsAligned(arena.value.base, GUEST_PAGE);
        FloorIsAligned(room, GUEST_PAGE);
        w := Layout(aligned.value, Floor(room, GUEST_PAGE), 0);
      }
    }
    WindowPages(arena, w);
  }

  /** The window is the guest pages of the arena. */
  lemma WindowPages(arena: Option<Arena>, w: Layout)
    requires arena.Some? ==> 0 < arena.value.base && ArenaEnd(arena.value) <= U64_MAX
    requires if arena.Some? && Ceil(arena.value.base, GUEST_PAGE) < ArenaEnd(arena.value)
                && arena.value.base + (GUEST_PAGE - 1) <= U64_MAX
             then w.base == Ceil(arena.value.base, GUEST_PAGE)
                  && w.size == Floor(ArenaEnd(arena.value) - w.base, GUEST_PAGE)
             else w.base == 0 && w.size == 0
    ensures PagesOfArena(arena, w.base, w.base + w.size)
  {
    forall a ensures PageOf(w.base, w.base + w.size, a) <==> ArenaPage(arena, a) {
      if arena.Some? {
        var lo, hi := arena.value.base, ArenaEnd(arena.value);
        if Ceil(lo, GUEST_PAGE) < hi && lo + (GUEST_PAGE - 1) <= U64_MAX { SamePages(lo, hi, w.base, w.size, a); }
        else { NoPages(lo, hi, a); }
      }
    }
  }

  class KernelVm {
    const mem: GuestAddressSpace
    const managedBase: U64
    const managedSize: U64
    var flexCapacity: U64
    var flexUsed: int
    var allocs: seq<Alloc>

    function Window(): Layout
      reads `flexCapacity
    {
      Layout(managedBase, managedSize, flexCapacity)
    }

    ghost predicate Inv()
      reads this, mem
    {
      InvWith(flexUsed)
    }

    /** The invariant with `used` flexible bytes mapped; between mapping and booking the two differ. */
    ghost predicate InvWith(used: int)
      reads this, mem
    {
      mem.Inv() && Books(mem.regions, Window(), allocs, used) && (managedSize > 0 ==> Situated())
    }

    /** The managed window lies in the arena. */
    ghost predicate Situated() {
      mem.arena.Some? && mem.arena.value.base <= managedBase && managedBase + managedSize <= ArenaEnd(mem.arena.value)
    }

    /** Nothing stands in the way of a request for guest pages: there is no host to ask, or it refuses nothing and its
        pages divide the guest's. */
    ghost predicate Obliging() {
      !mem.Native() || (mem.Willing() && mem.page > 0 && Aligned(GUEST_PAGE, mem.page))
    }

    constructor (mem: GuestAddressSpace)
      requires mem.Inv() && mem.regions == map[]
      ensures Inv() && this.mem == mem && allocs == [] && flexUsed == 0 && flexCapacity == 0
      ensures PagesOfArena(mem.arena, managedBase, managedBase + managedSize)
    {
      var w := ManagedWindow(mem.arena);
      this.mem, managedBase, managedSize, flexCapacity, flexUsed, allocs := mem, w.base, w.size, 0, 0, [];
      new;
      assert mem.Inv();
      assert Books(mem.regions, Window(), allocs, flexUsed) by { BooksEmpty(w); }
    }

    /** Flexible memory is sized once, before anything is allocated or mapped. */
    method SetFlexibleMemorySize(size: U64) returns (ok: bool)
      requires Inv()
      modifies `flexCapacity
      ensures Inv()
      ensures ok <==> Aligned(size, GUEST_PAGE) && size <= managedSize && allocs == [] && flexUsed == 0
                      && mem.regions == map[]
      ensures flexCapacity == if ok then size else old(flexCapacity)
    {
      ok := Aligned(size, GUEST_PAGE) && size <= managedSize && allocs == [] && flexUsed == 0 && mem.regions == map[];
      if ok { flexCapacity := size; }
    }

    // ---- Guest words ----------------------------------------------------

    ghost predicate Writable(a: int, n: nat)
      reads mem
    {
      exists k :: k in mem.regions && Covers(mem.regions[k], a) && mem.regions[k].info.prot.write
                  && a + n <= End(mem.regions[k])
    }

    method GuestWritable(a: int, n: nat) returns (ok: bool)
      requires Inv()
      ensures ok <==> n == 0 || Writable(a, n)
    {
      if n == 0 { return true; }
      var k := mem.Holder(a, n);
      ok := k.Some? && mem.regions[k.value].info.prot.write;
      if k.Some? {
        forall j | j in mem.regions && Covers(mem.regions[j], a) ensures j == k.value {
          OneOwner(mem.regions, mem.Native(), j, k.value, a);
        }
      }
    }

    /** What there is in memory now. */
    ghost function Seen(): Picture
      reads mem
    {
      Picture(mem.regions, mem.bytes)
    }

    /** Guest memory holds the 64-bit word `v` at `a`. */
    ghost predicate Word(a: int, v: U64)
      reads mem
    {
      Stored(mem.regions, mem.Native(), mem.bytes, a, ToLe(v, 8))
    }

    /** The same, but for the bytes that a later word at `over` has overwritten. */
    ghost predicate WordBut(a: int, v: U64, over: int)
      reads mem
    {
      StoredBut(mem.regions, mem.Native(), mem.bytes, a, ToLe(v, 8), over, over + 8)
    }

    method WriteU64(a: int, v: U64) returns (ok: bool)
      requires Inv()
      modifies mem`regions, mem`bytes
      ensures Inv() && SameInfos(old(mem.regions), mem.regions)
              && (!ok || mem.Native() ==> mem.regions == old(mem.regions))
      ensures ok <==> old(Writable(a, 8))
      ensures ok ==> Word(a, v)
      ensures !ok ==> mem.bytes == old(mem.bytes)
      ensures Frame(old(Seen()), Seen(), 0, 0, a, a + 8)
    {
      ok := GuestWritable(a, 8);
      if ok {
        ok := mem.Write(a, ToLe(v, 8));
        FrameWrite(old(Seen()), Seen(), mem.Native(), a, ToLe(v, 8));
        SameInfosSameBut(old(mem.regions), mem.regions);
        BooksAfterSameBut(old(mem.regions), mem.regions, Window(), allocs, flexUsed);
      }
    }

    method GuestReadable(a: int, n: nat) returns (ok: bool)
      requires Inv()
      ensures Writable(a, n) ==> ok
    {
      var k := mem.Holder(a, n);
      ok := k.Some? && (mem.regions[k.value].info.prot.read || mem.regions[k.value].info.prot.write);
      if k.Some? {
        forall j | j in mem.regions && Covers(mem.regions[j], a) ensures j == k.value {
          OneOwner(mem.regions, mem.Native(), j, k.value, a);
        }
      }
    }

    method ReadGuest(a: int, n: nat) returns (v: Option<seq<Byte>>)
      requires Inv()
      ensures v.Some? ==> |v.value| == n && Stored(mem.regions, mem.Native(), mem.bytes, a, v.value)
      ensures Writable(a, n) ==> v.Some?
    {
      var readable := GuestReadable(a, n);
      if !readable { return None; }
      v := mem.View(a, n);
    }

    method ReadU64(a: int) returns (v: Option<U64>)
      requires Inv()
      ensures v.Some? ==> Word(a, v.value)
      ensures Writable(a, 8) ==> v.Some?
    {
      var bytes := ReadGuest(a, 8);
      if bytes.None? { return None; }
      ReadsWord(mem.regions, mem.Native(), mem.bytes, a, bytes.value);
      return Some(FromLe(bytes.value));
    }

    // ---- Protection and unmapping ---------------------------------------

    /** Reprotects the guest pages that hold a range, which must lie in one region. */
    method Mprotect(address: U64, size: U64, g: GuestProt) returns (r: Status)
      requires Inv()
      modifies mem`regions, mem`pages, mem`asked
      ensures Inv()
      ensures r.Done? && size > 0 ==>
                CpuProtection(g).Some? && PagesOf(address, size).Some?
                && var p := PagesOf(address, size).value;
                   Reprotected(old(mem.regions), mem.regions, p.lo, p.hi, CpuProtection(g).value)
      ensures r.Fail? || size == 0 ==> mem.regions == old(mem.regions)
      ensures size == 0 ==> (r.Done? <==> CpuProtection(g).Some?)
      ensures r.Fail? ==> r.code == if CpuProtection(g).None? || (size > 0 && PagesOf(address, size).None?) then EINVAL
                                    else ENOMEM
      ensures Obliging() && size > 0 ==>
                (r.Done? <==> CpuProtection(g).Some? && PagesOf(address, size).Some?
                              && InOne(old(mem.regions), PagesOf(address, size).value.lo,
                                       PagesOf(address, size).value.hi))
    {
      var prot := CpuProtection(g);
      if prot.None? { return Fail(EINVAL); }
      if size == 0 { return Done; }
      var span := PagesOf(address, size);
      if span.None? { return Fail(EINVAL); }
      if span.value.hi > U64_MAX { return Fail(ENOMEM); }
      var ok := SetProtection(span.value.lo, span.value.hi, prot.value);
      return if ok then Done else Fail(ENOMEM);
    }

    /** Protections are in no book. */
    method SetProtection(lo: U64, hi: U64, p: Prot) returns (ok: bool)
      requires Inv() && lo < hi && Aligned(lo, GUEST_PAGE) && Aligned(hi, GUEST_PAGE)
      modifies mem`regions, mem`pages, mem`asked
      ensures Inv()
      ensures ok ==> Reprotected(old(mem.regions), mem.regions, lo, hi, p)
      ensures !ok ==> mem.regions == old(mem.regions)
      ensures Obliging() ==> (ok <==> InOne(old(mem.regions), lo, hi))
    {
      if mem.Native() && Obliging() {
        forall k | k in mem.regions && k <= lo && hi <= End(mem.regions[k])
          ensures OnPages(mem.arena.value, mem.page, lo, hi)
        {
          GuestPages(mem.arena.value, mem.page, lo, hi);
        }
      }
      ok := mem.ProtectRange(lo, hi - lo, p);
      if ok {
        ReprotectedSameBut(old(mem.regions), mem.regions, lo, hi, p, mem.Native());
        BooksAfterSameBut(old(mem.regions), mem.regions, Window(), allocs, flexUsed);
      }
    }

    /** The flexible bytes of a range. */
    method FlexibleIn(lo: int, hi: int) returns (n: nat)
      requires mem.Inv() && 0 <= lo < hi
      ensures n == Count(mem.regions, lo, hi)
    {
      var s := mem.Infos();
      ListingInOrder(mem.regions, s, mem.Native());
      n := SumFlexible(s, lo, hi, mem.regions, mem.Native());
    }

    /** Takes a range out and returns its flexible bytes to the budget. */
    method Release(lo: U64, hi: U64) returns (ok: bool)
      requires Inv() && lo < hi && Aligned(lo, GUEST_PAGE) && Aligned(hi, GUEST_PAGE)
      modifies mem`regions, mem`pages, mem`asked, `flexUsed
      ensures Inv()
      ensures if ok then Removed(old(mem.regions), mem.regions, lo, hi) && Spares(old(mem.regions), mem.regions, lo, hi)
              else mem.regions == old(mem.regions) && flexUsed == old(flexUsed)
      ensures mem.Answers() ==>
                (ok <==> (mem.Native() ==> MetOnPages(old(mem.regions), lo, hi, mem.arena.value, mem.page)))
    {
      var released := FlexibleIn(lo, hi);
      ok := mem.UnmapRange(lo, hi - lo);
      if ok { Refund(lo, hi, released, old(mem.regions)); }
    }

    /** Books the flexible bytes of a range that was taken out. */
    method Refund(ghost lo: U64, ghost hi: U64, released: nat, ghost before: Table)
      requires mem.Inv() && Books(before, Window(), allocs, flexUsed) && (managedSize > 0 ==> Situated())
      requires lo < hi && Removed(before, mem.regions, lo, hi) && released == Count(before, lo, hi)
               && Aligned(lo, GUEST_PAGE) && Aligned(hi, GUEST_PAGE)
      modifies `flexUsed
      ensures Inv()
    {
      var left := flexUsed - (if flexUsed < released then flexUsed else released);
      BooksAfterRelease(before, mem.regions, Window(), allocs, flexUsed, left, lo, hi, released);
      flexUsed := left;
    }

    /** munmap: from the page that holds the address, as many pages as the size alone needs. */
    method UnmapMemory(address: U64, size: U64) returns (r: Status)
      requires Inv()
      modifies mem`regions, mem`pages, mem`asked, `flexUsed
      ensures Inv()
      ensures r.Fail? ==> r.code == EINVAL && mem.regions == old(mem.regions) && flexUsed == old(flexUsed)
      ensures r.Done? ==> var lo := Floor(address, GUEST_PAGE);
                          Removed(old(mem.regions), mem.regions, lo, lo + Ceil(size, GUEST_PAGE))
      ensures mem.Answers() ==>
                (r.Done? <==> 0 < size && size + (GUEST_PAGE - 1) <= U64_MAX
                              && UnmapsPages(old(mem.regions), Floor(address, GUEST_PAGE), Ceil(size, GUEST_PAGE)))
    {
      if size == 0 { return Fail(EINVAL); }
      var lo: U64 := Floor(address, GUEST_PAGE);
      var n := CheckedAlignUp(size, GUEST_PAGE);
      if n.None? { return Fail(EINVAL); }
      CeilBounds(size, GUEST_PAGE);
      if !InsideArena(mem.arena, lo, n.value) { return Fail(EINVAL); }
      var hi := lo + n.value;
      PageSpan(address, size, lo, hi);
      r := UnmapPages(lo, hi);
    }

    /** The range lies in the arena, and what is there consists of whole pages. */
    ghost predicate UnmapsPages(rs: Table, lo: int, n: int)
      requires mem.page > 0
    {
      InsideArena(mem.arena, lo, n)
      && (mem.Native() ==> MetOnPages(rs, lo, lo + n, mem.arena.value, mem.page))
    }

    method UnmapPages(lo: U64, hi: U64) returns (r: Status)
      requires Inv() && lo < hi && Aligned(lo, GUEST_PAGE) && Aligned(hi, GUEST_PAGE)
      modifies mem`regions, mem`pages, mem`asked, `flexUsed
      ensures Inv()
      ensures r.Fail? ==> r.code == EINVAL && mem.regions == old(mem.regions) && flexUsed == old(flexUsed)
      ensures r.Done? ==> Removed(old(mem.regions), mem.regions, lo, hi)
      ensures mem.Answers() ==>
                (r.Done? <==> (mem.Native() ==> MetOnPages(old(mem.regions), lo, hi, mem.arena.value, mem.page)))
    {
      var ok := Release(lo, hi);
      return if ok then Done else Fail(EINVAL);
    }

    // ---- Ordinary mappings ----------------------------------------------

    /** The table with one more region; every other region is untouched. */
    twostate predicate Installed(info: Info)
      reads mem
    {
      OneMore(old(mem.regions), mem.regions, info.base) && mem.regions[info.base].info == info
    }

    /** The range is free, and the arena can open its pages. */
    ghost predicate Mappable(rs: Table, base: int, size: int)
      requires mem.page > 0
    {
      0 < size && base + size <= U64_MAX && Free(rs, base, base + size) && (mem.Native() ==> mem.InOrder(base, size))
    }

    /** A fixed mapping finds its range in the arena, with nothing there or only what it may replace. */
    ghost predicate FixedReady(rs: Table, at: int, n: int, noOverwrite: bool)
      requires mem.page > 0
    {
      Claimable(rs, at, n, noOverwrite) && (mem.Native() ==> mem.InOrder(at, n))
    }

    ghost predicate Claimable(rs: Table, at: int, n: int, noOverwrite: bool)
      requires mem.page > 0
    {
      InsideArena(mem.arena, at, n) && Yields(rs, at, at + n, noOverwrite, PLAIN)
    }

    /** Any other mapping finds a free place, and the arena can open the pages of the least one. */
    ghost predicate FreeReady(rs: Table, hint: U64, n: int)
      requires mem.page > 0
    {
      exists a :: LeastOpen(rs, mem.arena, hint, n, a) && (mem.Native() ==> mem.InOrder(a, n))
    }

    /** Whether a mapping finds its place depends on the least free one alone. */
    lemma FreeReadyAt(rs: Table, hint: U64, n: int, at: int)
      requires mem.page > 0 && LeastOpen(rs, mem.arena, hint, n, at)
      ensures FreeReady(rs, hint, n) <==> (mem.Native() ==> mem.InOrder(at, n))
    {
    }

    /** With an obliging host any free place will do. */
    lemma FreeReadyExactly(hint: U64, n: U64)
      requires Inv() && Obliging() && Aligned(n, GUEST_PAGE) && 0 < n
      ensures FreeReady(mem.regions, hint, n) <==> SomeVacant(mem.regions, mem.arena, hint, n)
    {
      if SomeVacant(mem.regions, mem.arena, hint, n) {
        var a :| Origin(mem.arena, hint) <= a && Vacant(mem.regions, mem.arena, n, a);
        var at := LeastVacant(mem.regions, mem.arena, hint, n, Origin(mem.arena, hint), a);
        if mem.Native() { GuestPagesRequestable(mem.arena.value, mem.page, at, n); }
      }
    }

    /** Adds a region of a kind that no book follows. */
    method AddOrdinary(info: Info) returns (ok: bool)
      requires Inv() && info.kind != Direct && info.kind != Flexible
      modifies mem`regions, mem`pages, mem`asked
      ensures Inv()
      ensures ok ==> Installed(info) && Free(old(mem.regions), info.base, info.base + info.size) && 0 < info.size
                     && info.base + info.size <= U64_MAX && (mem.Native() ==> mem.InOrder(info.base, info.size))
      ensures !ok ==> mem.regions == old(mem.regions)
      ensures Frame(old(Seen()), Seen(), info.base, info.base + info.size, 0, 0)
      ensures mem.Answers() ==> (ok <==> Mappable(old(mem.regions), info.base, info.size))
    {
      ok := mem.Map(info);
      if ok {
        ghost var r: Region :| r.info == info && mem.regions == old(mem.regions)[info.base := r]
                               && Added(old(mem.regions), mem.regions, r);
        BooksAfterAdd(old(mem.regions), mem.regions, r, Window(), allocs, flexUsed);
        assert info.base in old(mem.regions) ==> Meets(old(mem.regions)[info.base], info.base, info.base + info.size);
        FrameOne(old(Seen()), Seen(), info.base, info.base, info.base + info.size, 0, 0);
      }
    }

    /** Clears a writable region and fills in `data`. */
    method Fill(base: int, size: nat, data: seq<Byte>, ghost used: int)
      requires InvWith(used) && base in mem.regions && mem.regions[base].info.size == size
               && mem.regions[base].info.prot.write && |data| <= size
      modifies mem`regions, mem`bytes
      ensures InvWith(used) && SameInfos(old(mem.regions), mem.regions)
      ensures forall j :: j in old(mem.regions) && j != base ==> mem.regions[j] == old(mem.regions)[j]
      ensures Stored(mem.regions, mem.Native(), mem.bytes, base, Padded(data, size))
      ensures BytesKept(old(mem.bytes), mem.bytes, base, base + size, 0, 0)
    {
      assert Covers(mem.regions[base], base);
      var ok := mem.Zero(base, size);
      assert ok;
      ghost var r0, b0 := mem.regions, mem.bytes;
      ok := mem.Write(base, data);
      assert ok;
      ZeroThenData(r0, mem.regions, mem.Native(), b0, mem.bytes, base, size, data);
      forall j | j in old(mem.regions) && j != base ensures mem.regions[j] == old(mem.regions)[j] {
        assert !Covers(old(mem.regions)[j], base);
      }
      SameInfosSameBut(old(mem.regions), mem.regions);
      BooksAfterSameBut(old(mem.regions), mem.regions, Window(), allocs, used);
    }

    /** MAP_FIXED: the range must lie in the arena and must not meet direct or flexible memory; whatever else is
        there is taken out first, or with MAP_NO_OVERWRITE refused. */
    method ClaimFixed(lo: U64, n: U64, noOverwrite: bool) returns (r: Status)
      requires Inv() && 0 < n
      modifies mem`regions, mem`pages, mem`asked
      ensures Inv()
      ensures r.Done? ==> InsideArena(mem.arena, lo, n) && Free(mem.regions, lo, lo + n)
      ensures if r.Done? && !noOverwrite then Removed(old(mem.regions), mem.regions, lo, lo + n)
              else mem.regions == old(mem.regions)
      ensures r.Done? ==> NoManaged(old(mem.regions), lo, lo + n)
      ensures FixedCode(old(mem.regions), mem.arena, lo, n, noOverwrite, if r.Fail? then r.code else ENOMEM)
      ensures mem.Answers() ==> (r.Done? <==> Claimable(old(mem.regions), lo, n, noOverwrite))
    {
      if !InsideArena(mem.arena, lo, n) { return Fail(ENOMEM); }
      r := ClaimRange(lo, lo + n, noOverwrite);
    }

    method ClaimRange(lo: U64, hi: U64, noOverwrite: bool) returns (r: Status)
      requires Inv() && lo < hi
      modifies mem`regions, mem`pages, mem`asked
      ensures Inv()
      ensures r.Done? ==> Free(mem.regions, lo, hi) && NoManaged(old(mem.regions), lo, hi)
      ensures if r.Done? && !noOverwrite then Removed(old(mem.regions), mem.regions, lo, hi)
              else mem.regions == old(mem.regions)
      ensures (if r.Fail? then r.code else ENOMEM)
              == if !noOverwrite && !OnlyKinds(old(mem.regions), lo, hi, PLAIN) then ENOTSUP else ENOMEM
      ensures mem.Answers() ==> (r.Done? <==> Yields(old(mem.regions), lo, hi, noOverwrite, PLAIN))
    {
      var s := mem.Infos();
      OverlapsAre(mem.regions, s, lo, hi, PLAIN);
      if noOverwrite {
        var met := AnyOverlap(s, lo, hi);
        if met { return Fail(ENOMEM); }
        FreeNoManaged(mem.regions, lo, hi);
        return Done;
      }
      var plain := AllOverlapsIn(s, lo, hi, PLAIN);
      if !plain { return Fail(ENOTSUP); }
      r := ReplacePlain(lo, hi, s);
    }

    method ReplacePlain(lo: U64, hi: U64, ghost s: seq<Info>) returns (r: Status)
      requires Inv() && lo < hi && Listing(mem.regions, s) && OnlyKinds(mem.regions, lo, hi, PLAIN)
      requires forall i :: 0 <= i < |s| && Overlaps(s[i], lo, hi) ==> s[i].kind in PLAIN
      modifies mem`regions, mem`pages, mem`asked
      ensures Inv() && NoManaged(old(mem.regions), lo, hi)
      ensures if r.Done? then Removed(old(mem.regions), mem.regions, lo, hi) && Free(mem.regions, lo, hi)
              else r.code == ENOMEM && mem.regions == old(mem.regions)
      ensures mem.Answers() ==> (r.Done? <==> Yields(old(mem.regions), lo, hi, false, PLAIN))
    {
      if Free(mem.regions, lo, hi) && mem.Native() { FreeOnPages(mem.regions, lo, hi, mem.arena.value, mem.page); }
      NoFlexibleMet(mem.regions, s, mem.Native(), lo, hi);
      PlainNoManaged(mem.regions, s, mem.Native(), lo, hi);
      assert CutsWhole(mem.regions, lo, hi);
      var ok := mem.UnmapRange(lo, hi - lo);
      if !ok { return Fail(ENOMEM); }
      BooksAfterRemove(old(mem.regions), mem.regions, Window(), allocs, flexUsed, lo, hi, 0);
      RemovedFree(old(mem.regions), mem.regions, mem.Native(), lo, hi);
      return Done;
    }

    /** Without MAP_FIXED: the least free place from the hint on. */
    method ClaimFree(hint: U64, n: U64) returns (at: Option<U64>)
      requires Inv() && n > 0
      ensures at.Some? ==> LeastOpen(mem.regions, mem.arena, hint, n, at.value)
      ensures at.None? ==> !SomeVacant(mem.regions, mem.arena, hint, n)
    {
      var s := mem.Infos();
      ListingInOrder(mem.regions, s, mem.Native());
      at := FindFreeMapping(s, mem.arena, hint, n);
      forall a ensures Place(s, mem.arena, n, a) <==> Vacant(mem.regions, mem.arena, n, a) {
        PlaceIsVacant(mem.regions, s, mem.Native(), mem.arena, n, a);
      }
    }

    /** The common tail of a mapping: staged, cleared, filled and given its final protection, or undone. */
    method Settle(info: Info, final: Prot, data: seq<Byte>) returns (ok: bool)
      requires Inv() && info.kind != Direct && info.kind != Flexible && info.kind != Reserved
               && info.prot == READ_WRITE && |data| <= info.size
      modifies mem
      ensures Inv()
      ensures ok ==> Installed(info.(prot := final)) && Free(old(mem.regions), info.base, info.base + info.size)
      ensures ok ==> Stored(mem.regions, mem.Native(), mem.bytes, info.base, Padded(data, info.size))
      ensures Frame(old(Seen()), Seen(), info.base, info.base + info.size, 0, 0)
      ensures !ok ==> mem.regions == old(mem.regions) && KeptWhereMapped(mem.regions, old(mem.bytes), mem.bytes)
      ensures mem.Answers() ==> (ok <==> Mappable(old(mem.regions), info.base, info.size))
    {
      ok := AddOrdinary(info);
      if !ok { return; }
      Fill(info.base, info.size, data, flexUsed);
      FreeIsUnmapped(old(mem.regions), old(mem.bytes), mem.bytes, info.base, info.base + info.size);
      if final != READ_WRITE {
        TakenBack(mem.regions, old(mem.regions), info.base);
        ok := Finish(info.base, info.size, final, Padded(data, info.size), flexUsed);
      }
      if ok { FrameOne(old(Seen()), Seen(), info.base, info.base, info.base + info.size, 0, 0); }
    }

    /** Gives a region just mapped its final protection, or takes it out again. */
    method Finish(base: int, size: nat, final: Prot, ghost data: seq<Byte>, ghost used: int) returns (ok: bool)
      requires Stored(mem.regions, mem.Native(), mem.bytes, base, data)
      requires InvWith(used) && base in mem.regions && mem.regions[base].info.size == size
               && (mem.Native() ==> mem.InOrder(base, size)) && mem.regions[base].info.kind != Direct
      modifies mem`regions, mem`pages, mem`asked
      ensures ok ==> InvWith(used)
      ensures ok ==> mem.regions.Keys == old(mem.regions).Keys
                     && mem.regions[base].info == old(mem.regions)[base].info.(prot := final)
                     && forall k :: k in old(mem.regions) && k != base ==> mem.regions[k] == old(mem.regions)[k]
      ensures ok ==> Stored(mem.regions, mem.Native(), mem.bytes, base, data)
      ensures !ok ==> InvWith(used - FlexSize(old(mem.regions)[base])) && mem.regions == old(mem.regions) - {base}
      ensures mem.Answers() ==> ok
    {
      ok := mem.Protect(base, size, final);
      if ok {
        ReprotectedSameBut(old(mem.regions), mem.regions, base, base + size, final, mem.Native());
        BooksAfterSameBut(old(mem.regions), mem.regions, Window(), allocs, used);
        RepaintKeeps(old(mem.regions), mem.regions, mem.Native(), mem.bytes, base, final, base, data);
      } else {
        Withdraw(base, size, used);
      }
    }

    /** Clean-up of a region just mapped. */
    method Withdraw(base: int, size: nat, ghost used: int)
      requires InvWith(used) && base in mem.regions && mem.regions[base].info.size == size
               && (mem.Native() ==> mem.InOrder(base, size))
      requires WholeRegion(mem.regions[base])
      modifies mem`regions, mem`pages
      ensures InvWith(used - FlexSize(old(mem.regions)[base])) && mem.regions == old(mem.regions) - {base}
      ensures Removed(old(mem.regions), mem.regions, base, base + size)
    {
      mem.Undo(base, size);
      BooksWithout(old(mem.regions), mem.regions, mem.Native(), Window(), allocs, used, base);
    }

    /** What a successful mmap leaves at `at`: its region with its contents, where nothing managed was. */
    twostate predicate Mmapped(at: U64, info: Info, data: seq<Byte>)
      requires |data| <= info.size
      reads mem
    {
      && at in mem.regions && mem.regions[at].info == info
      && NoManaged(old(mem.regions), at, at + info.size)
      && Frame(old(Seen()), Seen(), at, at + info.size, 0, 0)
      && (info.kind != Reserved ==> Stored(mem.regions, mem.Native(), mem.bytes, at, Padded(data, info.size)))
    }

    /** mmap. Zero-filled pages, or a snapshot of a file, at the address asked for or at the least free place. */
    method MapMemory(address: U64, size: U64, g: GuestProt, flags: MapFlags, offset: int, file: Snapshot)
      returns (r: MapResult)
      requires Inv() && (file.Bytes? ==> |file.data| == size)
      modifies mem
      ensures Inv()
      ensures r.At? ==> var q := Screen(address, size, g, flags, offset, file);
                        && q.Good? && (flags.fixed ==> r.at == address)
                        && Mmapped(r.at, InfoFor(flags, r.at, q.n, q.prot, offset, g), DataOf(flags, file))
                        && (flags.noOverwrite || !flags.fixed ==> Free(old(mem.regions), r.at, r.at + q.n))
                        && (!flags.fixed ==> LeastOpen(old(mem.regions), mem.arena, q.hint, q.n, r.at))
      ensures r.Refused? ==> KeptWhereMapped(mem.regions, old(mem.bytes), mem.bytes)
      ensures r.Refused? && !flags.fixed ==> mem.regions == old(mem.regions)
      ensures r.Refused? ==> var q := Screen(address, size, g, flags, offset, file);
                             && (q.Bad? ==> r.code == q.code && mem.regions == old(mem.regions)
                                            && mem.bytes == old(mem.bytes))
                             && (q.Good? && flags.fixed ==>
                                   Frame(old(Seen()), Seen(), q.hint, q.hint + q.n, 0, 0)
                                   && Lost(old(mem.regions), mem.regions, q.hint, q.n, flags.noOverwrite, PLAIN))
                             && (q.Good? && flags.fixed ==> FixedCode(old(mem.regions), mem.arena, q.hint, q.n,
                                                                      flags.noOverwrite, r.code))
                             && (q.Good? && !flags.fixed ==> r.code == ENOMEM)
      ensures mem.Answers() ==> var q := Screen(address, size, g, flags, offset, file);
                                r.At? <==> q.Good? && if flags.fixed
                                                      then FixedReady(old(mem.regions), q.hint, q.n, flags.noOverwrite)
                                                      else FreeReady(old(mem.regions), q.hint, q.n)
      ensures Obliging() && !flags.fixed ==>
                var q := Screen(address, size, g, flags, offset, file);
                r.At? <==> q.Good? && SomeVacant(old(mem.regions), mem.arena, q.hint, q.n)
    {
      var q := Screen(address, size, g, flags, offset, file);
      if q.Bad? { return Refused(q.code); }
      CeilIsAligned(size, GUEST_PAGE);
      if Obliging() { FreeReadyExactly(q.hint, q.n); }
      r := MapScreened(flags, q.hint, q.n, q.prot, offset, g, DataOf(flags, file));
    }

    method MapScreened(flags: MapFlags, hint: U64, n: U64, prot: Prot, offset: int, g: GuestProt, data: seq<Byte>)
      returns (r: MapResult)
      requires Inv() && n > 0 && |data| <= n && (KindOf(flags) == FileBacked ==> 0 <= offset <= U64_MAX)
      modifies mem
      ensures Inv()
      ensures r.At? ==> && (flags.fixed ==> r.at == hint)
                        && Mmapped(r.at, InfoFor(flags, r.at, n, prot, offset, g), data)
                        && (flags.noOverwrite || !flags.fixed ==> Free(old(mem.regions), r.at, r.at + n))
                        && (!flags.fixed ==> LeastOpen(old(mem.regions), mem.arena, hint, n, r.at))
      ensures r.Refused? && flags.fixed ==> Frame(old(Seen()), Seen(), hint, hint + n, 0, 0)
                                            && Lost(old(mem.regions), mem.regions, hint, n, flags.noOverwrite, PLAIN)
      ensures r.Refused? ==> KeptWhereMapped(mem.regions, old(mem.bytes), mem.bytes)
      ensures r.Refused? && !flags.fixed ==> mem.regions == old(mem.regions)
      ensures r.Refused? ==>
                if flags.fixed then FixedCode(old(mem.regions), mem.arena, hint, n, flags.noOverwrite, r.code)
                else r.code == ENOMEM
      ensures mem.Answers() ==>
                (r.At? <==> if flags.fixed then FixedReady(old(mem.regions), hint, n, flags.noOverwrite)
                            else FreeReady(old(mem.regions), hint, n))
    {
      if flags.fixed {
        r := MapFixed(flags, hint, n, prot, offset, g, data);
      } else {
        r := MapFree(flags, hint, n, prot, offset, g, data);
      }
    }

    /** Without MAP_FIXED, at the least free place. */
    method MapFree(flags: MapFlags, hint: U64, n: U64, prot: Prot, offset: int, g: GuestProt, data: seq<Byte>)
      returns (r: MapResult)
      requires Inv() && n > 0 && |data| <= n && (KindOf(flags) == FileBacked ==> 0 <= offset <= U64_MAX)
      modifies mem
      ensures Inv()
      ensures r.At? ==> && Mmapped(r.at, InfoFor(flags, r.at, n, prot, offset, g), data)
                        && Free(old(mem.regions), r.at, r.at + n)
                        && LeastOpen(old(mem.regions), mem.arena, hint, n, r.at)
      ensures r.Refused? ==> mem.regions == old(mem.regions) && KeptWhereMapped(mem.regions, old(mem.bytes), mem.bytes)
      ensures r.Refused? ==> r.code == ENOMEM
      ensures mem.Answers() ==> (r.At? <==> FreeReady(old(mem.regions), hint, n))
    {
      var free := ClaimFree(hint, n);
      if free.None? { return Refused(ENOMEM); }
      FreeReadyAt(mem.regions, hint, n, free.value);
      r := InstallFree(flags, free.value, n, prot, offset, g, data);
    }

    /** With MAP_FIXED, where it says. */
    method MapFixed(flags: MapFlags, at: U64, n: U64, prot: Prot, offset: int, g: GuestProt, data: seq<Byte>)
      returns (r: MapResult)
      requires Inv() && n > 0 && |data| <= n && (KindOf(flags) == FileBacked ==> 0 <= offset <= U64_MAX)
      modifies mem
      ensures Inv()
      ensures r.At? ==> r.at == at && Mmapped(at, InfoFor(flags, at, n, prot, offset, g), data)
                        && (flags.noOverwrite ==> Free(old(mem.regions), at, at + n))
      ensures r.Refused? ==> Frame(old(Seen()), Seen(), at, at + n, 0, 0)
                             && Lost(old(mem.regions), mem.regions, at, n, flags.noOverwrite, PLAIN)
                             && KeptWhereMapped(mem.regions, old(mem.bytes), mem.bytes)
      ensures r.Refused? ==> FixedCode(old(mem.regions), mem.arena, at, n, flags.noOverwrite, r.code)
      ensures mem.Answers() ==> (r.At? <==> FixedReady(old(mem.regions), at, n, flags.noOverwrite))
    {
      var claimed := ClaimFixed(at, n, flags.noOverwrite);
      if claimed.Fail? { return Refused(claimed.code); }
      ghost var mid := Seen();
      assert Frame(old(Seen()), mid, at, at + n, 0, 0) by {
        if !flags.noOverwrite { FrameRemoved(old(Seen()), mid, at, at + n, 0, 0); }
      }
      if flags.noOverwrite { FreeRemoved(mem.regions, at, at + n); }
      r := InstallFree(flags, at, n, prot, offset, g, data);
      FrameTwice(old(Seen()), mid, Seen(), at, at + n, 0, 0);
    }

    /** Where the range is free and in the arena, only its pages can be out of order. */
    method InstallFree(flags: MapFlags, at: U64, n: U64, prot: Prot, offset: int, g: GuestProt, data: seq<Byte>)
      returns (r: MapResult)
      requires Inv() && 0 < n && |data| <= n && (KindOf(flags) == FileBacked ==> 0 <= offset <= U64_MAX)
      requires Free(mem.regions, at, at + n) && InsideArena(mem.arena, at, n)
      modifies mem
      ensures Inv()
      ensures r.At? ==> r.at == at && Mmapped(at, InfoFor(flags, at, n, prot, offset, g), data)
      ensures r.Refused? ==> mem.regions == old(mem.regions) && KeptWhereMapped(mem.regions, old(mem.bytes), mem.bytes)
      ensures Frame(old(Seen()), Seen(), at, at + n, 0, 0)
      ensures r.Refused? ==> r.code == ENOMEM
      ensures mem.Answers() ==> (r.At? <==> (mem.Native() ==> mem.InOrder(at, n)))
    {
      r := Install(flags, at, n, prot, offset, g, data);
    }

    method Install(flags: MapFlags, at: U64, n: U64, prot: Prot, offset: int, g: GuestProt, data: seq<Byte>)
      returns (r: MapResult)
      requires Inv() && |data| <= n && (KindOf(flags) == FileBacked ==> 0 <= offset <= U64_MAX)
      modifies mem
      ensures Inv()
      ensures r.At? ==> r.at == at && Free(old(mem.regions), at, at + n)
                        && Mmapped(at, InfoFor(flags, at, n, prot, offset, g), data)
      ensures r.Refused? ==> mem.regions == old(mem.regions) && KeptWhereMapped(mem.regions, old(mem.bytes), mem.bytes)
      ensures Frame(old(Seen()), Seen(), at, at + n, 0, 0)
      ensures r.Refused? ==> r.code == ENOMEM
      ensures mem.Answers() ==> (r.At? <==> Mappable(old(mem.regions), at, n))
    {
      var ok := PlaceRegion(InfoFor(flags, at, n, prot, offset, g), data);
      return if ok then At(at) else Refused(ENOMEM);
    }

    /** A reserved region is only added; any other is filled as well. */
    method PlaceRegion(info: Info, data: seq<Byte>) returns (ok: bool)
      requires Inv() && info.kind != Direct && info.kind != Flexible && 0 <= info.base <= U64_MAX && |data| <= info.size
      modifies mem
      ensures Inv()
      ensures ok ==> Free(old(mem.regions), info.base, info.base + info.size) && Mmapped(info.base, info, data)
      ensures !ok ==> mem.regions == old(mem.regions) && KeptWhereMapped(mem.regions, old(mem.bytes), mem.bytes)
      ensures Frame(old(Seen()), Seen(), info.base, info.base + info.size, 0, 0)
      ensures mem.Answers() ==> (ok <==> Mappable(old(mem.regions), info.base, info.size))
    {
      if info.kind == Reserved {
        ok := Reserve(info);
      } else {
        ok := FillRegion(info, data);
      }
    }

    method Reserve(info: Info) returns (ok: bool)
      requires Inv() && info.kind == Reserved
      modifies mem`regions, mem`pages, mem`asked
      ensures Inv()
      ensures ok ==> Free(old(mem.regions), info.base, info.base + info.size) && Installed(info)
                     && NoManaged(old(mem.regions), info.base, info.base + info.size)
      ensures !ok ==> mem.regions == old(mem.regions)
      ensures Frame(old(Seen()), Seen(), info.base, info.base + info.size, 0, 0)
      ensures mem.Answers() ==> (ok <==> Mappable(old(mem.regions), info.base, info.size))
    {
      ok := AddOrdinary(info);
      if ok { FreeNoManaged(old(mem.regions), info.base, info.base + info.size); }
    }

    method FillRegion(info: Info, data: seq<Byte>) returns (ok: bool)
      requires Inv() && info.kind != Direct && info.kind != Flexible && info.kind != Reserved
      requires 0 <= info.base <= U64_MAX && |data| <= info.size
      modifies mem
      ensures Inv()
      ensures ok ==> Free(old(mem.regions), info.base, info.base + info.size) && Mmapped(info.base, info, data)
      ensures !ok ==> mem.regions == old(mem.regions) && KeptWhereMapped(mem.regions, old(mem.bytes), mem.bytes)
      ensures Frame(old(Seen()), Seen(), info.base, info.base + info.size, 0, 0)
      ensures mem.Answers() ==> (ok <==> Mappable(old(mem.regions), info.base, info.size))
    {
      ok := Settle(info.(prot := READ_WRITE), info.prot, data);
      if ok { FreeNoManaged(old(mem.regions), info.base, info.base + info.size); }
    }

    // ---- Direct memory --------------------------------------------------

    function Capacity(): int
      reads `flexCapacity
    {
      DirectCap(Window())
    }

    /** The ranges that direct memory cannot use now. */
    method Blocked() returns (b: seq<Range>)
      requires Inv() && 0 < Capacity()
      ensures ByStart(b) && Blocks(b, allocs, mem.regions, managedBase, Capacity())
    {
      var s := mem.Infos();
      b := BlockedRanges(allocs, s, managedBase, managedSize - flexCapacity, mem.regions, mem.Native());
    }

    /** The least aligned physical range of the window that is neither allocated nor mapped. */
    method FindSpot(start: U64, end: U64, size: U64, alignment: U64) returns (r: Search)
      requires Inv() && start < end <= Capacity() && 0 < size <= end - start && alignment > 0
      ensures r.Found? ==> LeastFree(allocs, mem.regions, managedBase, start, end, alignment, size, r.at)
      ensures !r.Found? ==> forall a :: !FreeSpot(allocs, mem.regions, managedBase, start, end, alignment, size, a)
    {
      var b := Blocked();
      r := FindDirect(b, start, end, size, alignment);
      forall a ensures Spot(b, start, end, alignment, size, a)
                       <==> FreeSpot(allocs, mem.regions, managedBase, start, end, alignment, size, a) {
        SpotIsFree(b, allocs, mem.regions, managedBase, Capacity(), start, end, alignment, size, a);
      }
    }

    /** The longest such range. */
    method FindLongest(start: U64, end: U64, alignment: U64) returns (at: U64, best: U64)
      requires Inv() && start < end <= Capacity() && alignment > 0
      ensures best > 0 ==> FreeSpot(allocs, mem.regions, managedBase, start, end, alignment, best, at)
      ensures forall a, size :: size > best ==>
                                  !FreeSpot(allocs, mem.regions, managedBase, start, end, alignment, size, a)
    {
      var b := Blocked();
      at, best := LongestDirect(b, start, end, alignment);
      if best > 0 { SpotIsFree(b, allocs, mem.regions, managedBase, Capacity(), start, end, alignment, best, at); }
      forall a, size | size > best ensures !FreeSpot(allocs, mem.regions, managedBase, start, end, alignment, size, a) {
        SpotIsFree(b, allocs, mem.regions, managedBase, Capacity(), start, end, alignment, size, a);
      }
    }

    /** Maps, clears and unmaps the canonical range of a new allocation. Nothing stays behind. */
    method ClearCanonical(base: U64, size: U64) returns (ok: bool)
      requires Inv()
      modifies mem
      ensures Inv() && mem.regions == old(mem.regions)
      ensures BytesKept(old(mem.bytes), mem.bytes, base, base + size, 0, 0)
      ensures KeptWhereMapped(mem.regions, old(mem.bytes), mem.bytes)
      ensures mem.Answers() && Mappable(old(mem.regions), base, size) ==> ok
      ensures ok && mem.Native() ==> Zeroed(mem.bytes, base, base + size, 0, 0)
    {
      ok := Stage(base, size);
      if ok {
        ok := ClearAdded(base, size, old(mem.regions));
        FreeIsUnmapped(mem.regions, old(mem.bytes), mem.bytes, base, base + size);
      }
    }

    /** A writable region to be cleared. */
    method Stage(base: U64, size: U64) returns (ok: bool)
      requires Inv()
      modifies mem`regions, mem`pages, mem`asked
      ensures Inv()
      ensures ok ==> OneMore(old(mem.regions), mem.regions, base) && Free(old(mem.regions), base, base + size)
                     && mem.regions[base].info == Info(base, size, READ_WRITE, "direct-init", 0, 0, Generic, true, 0)
                     && (mem.Native() ==> mem.InOrder(base, size))
      ensures !ok ==> mem.regions == old(mem.regions)
      ensures mem.Answers() ==> (ok <==> Mappable(old(mem.regions), base, size))
    {
      ok := AddOrdinary(Info(base, size, READ_WRITE, "direct-init", 0, 0, Generic, true, 0));
    }

    /** Clears a region just added to `before` and takes it out again. */
    method ClearAdded(base: U64, size: nat, ghost before: Table) returns (ok: bool)
      requires Inv() && OneMore(before, mem.regions, base) && mem.regions[base].info.size == size
      requires mem.regions[base].info.kind == Generic && mem.regions[base].info.prot.write
      requires mem.Native() ==> mem.InOrder(base, size)
      modifies mem
      ensures Inv() && mem.regions == before
      ensures BytesKept(old(mem.bytes), mem.bytes, base, base + size, 0, 0)
      ensures mem.Answers() ==> ok
      ensures mem.Native() ==> Zeroed(mem.bytes, base, base + size, 0, 0)
    {
      Fill(base, size, [], flexUsed);
      if mem.Native() { StoredZeros(mem.regions, mem.bytes, base, size); }
      TakenBack(mem.regions, before, base);
      ok := Vacate(base, size);
    }

    /** Unmaps a region just mapped, by request or, should the host refuse, as clean-up. */
    method Vacate(base: int, size: nat) returns (ok: bool)
      requires Inv() && base in mem.regions && mem.regions[base].info.size == size
               && (mem.Native() ==> mem.InOrder(base, size))
      requires mem.regions[base].info.kind != Flexible && WholeRegion(mem.regions[base])
      modifies mem`regions, mem`pages, mem`asked
      ensures Inv() && mem.regions == old(mem.regions) - {base}
      ensures mem.Answers() ==> ok
    {
      ok := mem.Unmap(base, size);
      if ok {
        BooksWithout(old(mem.regions), mem.regions, mem.Native(), Window(), allocs, flexUsed, base);
      } else {
        Withdraw(base, size, flexUsed);
      }
    }

    /** A free spot of direct memory can be mapped at its canonical address. */
    lemma SpotMappable(rs: Table, start: int, end: int, unit: int, size: int, at: int)
      requires Inv() && Obliging() && Valid(rs, mem.Native()) && unit > 0 && Aligned(unit, GUEST_PAGE) && 0 < size
               && Aligned(size, GUEST_PAGE)
      requires end <= Capacity() && FreeSpot(allocs, rs, managedBase, start, end, unit, size, at)
      ensures Mappable(rs, managedBase + at, size)
    {
      var lo := managedBase + at;
      forall a | lo <= a < lo + size ensures !Mapped(rs, a) {
        assert !Taken(allocs, rs, managedBase, a - managedBase) && managedBase + (a - managedBase) == a;
      }
      UnmappedIsFree(rs, mem.Native(), lo, lo + size);
      if mem.Native() {
        AlignedCoarse(at, unit, GUEST_PAGE);
        AlignedSum(managedBase, at, GUEST_PAGE);
        GuestPagesRequestable(mem.arena.value, mem.page, lo, size);
      }
    }

    /** The search window, clipped to the capacity. */
    function Clip(x: int): int
      reads `flexCapacity
    {
      if x < Capacity() then x else Capacity()
    }

    /** A place of direct memory is in the clipped window exactly if it is in the window. */
    lemma ClipsWindow(start: int, end: int, a: int, size: nat)
      requires 0 <= a && a + size <= Capacity() && 0 < size
      ensures Clip(start) <= a && a + size <= Clip(end) <==> start <= a && a + size <= end
    {
    }

    /** Success allocates the least free place of the window. Failure allocates nothing; EAGAIN means that there is
        no place, and only ENOMEM may leave other bytes, in a least place that stays unmapped. */
    twostate predicate Allocates(r: Status, at: int, start: int, end: int, unit: int, size: U64, memoryType: int)
      requires unit > 0
      reads this, mem
    {
      && SameInfos(old(mem.regions), mem.regions)
      && (r.Done? ==> && LeastFree(old(allocs), old(mem.regions), managedBase, start, end, unit, size, at)
                      && 0 <= at <= U64_MAX && allocs == Insert(old(allocs), Alloc(at, size, memoryType)))
      && (r.Fail? ==> allocs == old(allocs) && mem.regions == old(mem.regions))
      && (r.Fail? && r.code != ENOMEM ==> mem.bytes == old(mem.bytes))
      && (r == Fail(ENOMEM) ==>
            || mem.bytes == old(mem.bytes)
            || (LeastFree(allocs, old(mem.regions), managedBase, start, end, unit, size, at)
                && BytesKept(old(mem.bytes), mem.bytes, managedBase + at, managedBase + at + size, 0, 0)
                && KeptWhereMapped(mem.regions, old(mem.bytes), mem.bytes)))
      && (r == Fail(EAGAIN) ==> NoFreeSpot(old(allocs), old(mem.regions), managedBase, start, end, unit, size))
    }

    method AllocateDirect(searchStart: int, searchEnd: int, size: U64, alignment: U64, memoryType: int, out: U64)
      returns (r: Status, ghost at: int)
      requires Inv()
      modifies mem, `allocs
      ensures Inv() && Allocates(r, at, old(Clip(searchStart)), old(Clip(searchEnd)), Unit(alignment), size, memoryType)
      ensures r == Fail(EINVAL) <==> !old(Writable(out, 8)) || searchStart < 0 || searchEnd < 0
                                     || searchStart >= searchEnd || size == 0
                                     || !Aligned(size, GUEST_PAGE) || !GoodAlignment(alignment) || memoryType < 0
      ensures r.Fail? ==> r.code == EINVAL || r.code == EAGAIN || r.code == ENOMEM
      ensures Obliging() && r != Fail(EINVAL) ==>
                (r.Done? <==> !NoFreeSpot(old(allocs), old(mem.regions), managedBase, old(Clip(searchStart)),
                                          old(Clip(searchEnd)), Unit(alignment), size))
      ensures r.Done? ==> Word(out, at)
                          && Frame(old(Seen()), Seen(), managedBase + at, managedBase + at + size, out, out + 8)
      ensures r.Done? && mem.Native() ==> Zeroed(mem.bytes, managedBase + at, managedBase + at + size, out, out + 8)
    {
      var writable := GuestWritable(out, 8);
      if !writable || searchStart < 0 || searchEnd < 0 || searchStart >= searchEnd || size == 0
         || !Aligned(size, GUEST_PAGE)
         || !GoodAlignment(alignment) || memoryType < 0 {
        return Fail(EINVAL), 0;
      }
      UnitAligned(alignment);
      r, at := AllocateIn(Clip(searchStart), Clip(searchEnd), size, Unit(alignment), memoryType, out);
    }

    method AllocateIn(start: int, end: int, size: U64, unit: U64, memoryType: int, out: U64)
      returns (r: Status, ghost at: int)
      requires Inv() && 0 <= start && end <= Capacity() && 0 < size && Aligned(size, GUEST_PAGE)
      requires unit > 0 && Aligned(unit, GUEST_PAGE) && Writable(out, 8)
      modifies mem, `allocs
      ensures Inv() && Allocates(r, at, start, end, unit, size, memoryType)
      ensures r.Fail? ==> r.code == EAGAIN || r.code == ENOMEM
      ensures Obliging() ==> (r.Done?
                              <==> !NoFreeSpot(old(allocs), old(mem.regions), managedBase, start, end, unit, size))
      ensures r.Done? ==> Word(out, at)
                          && Frame(old(Seen()), Seen(), managedBase + at, managedBase + at + size, out, out + 8)
      ensures r.Done? && mem.Native() ==> Zeroed(mem.bytes, managedBase + at, managedBase + at + size, out, out + 8)
    {
      at := 0;
      if start >= end || size > end - start { return Fail(EAGAIN), 0; }
      var found := FindSpot(start, end, size, unit);
      if !found.Found? { return if found.Overflowed? then Fail(ENOMEM) else Fail(EAGAIN), 0; }
      at := found.at;
      var ok := AllocateAt(found.at, size, unit, memoryType, out, end);
      return if ok then Done else Fail(ENOMEM), at;
    }

    /** Clears, books and reports a spot that was found. */
    method AllocateAt(at: U64, size: U64, ghost unit: U64, memoryType: int, out: U64, ghost end: int) returns (ok: bool)
      requires Inv() && end <= Capacity() && 0 < size && Aligned(size, GUEST_PAGE) && Writable(out, 8)
      requires unit > 0 && Aligned(unit, GUEST_PAGE)
      requires FreeSpot(allocs, mem.regions, managedBase, at, end, unit, size, at)
      modifies mem, `allocs
      ensures Inv() && SameInfos(old(mem.regions), mem.regions)
      ensures ok ==> allocs == Insert(old(allocs), Alloc(at, size, memoryType)) && Word(out, at)
                     && Frame(old(Seen()), Seen(), managedBase + at, managedBase + at + size, out, out + 8)
                     && (mem.Native() ==> Zeroed(mem.bytes, managedBase + at, managedBase + at + size, out, out + 8))
      ensures !ok ==> allocs == old(allocs) && mem.regions == old(mem.regions)
                      && BytesKept(old(mem.bytes), mem.bytes, managedBase + at, managedBase + at + size, 0, 0)
                      && KeptWhereMapped(mem.regions, old(mem.bytes), mem.bytes)
      ensures Obliging() ==> ok
    {
      var base: U64 := managedBase + at;
      if Obliging() { SpotMappable(mem.regions, at, end, unit, size, at); }
      ok := ClearCanonical(base, size);
      if !ok { return; }
      ghost var mid := Seen();
      BooksAfterInsert(mem.regions, Window(), allocs, flexUsed, Alloc(at, size, memoryType), unit);
      allocs := Insert(allocs, Alloc(at, size, memoryType));
      ok := WriteU64(out, at);
      FrameWord(old(Seen()), mid, Seen(), base, base + size, out, out + 8);
      ZeroedStays(mid.bytes, mem.bytes, base, base + size, out, out + 8);
    }

    /** Writes the two words of an answer, the address first. */
    method Answer(addressOut: U64, at: U64, sizeOut: U64, best: U64) returns (ok: bool)
      requires Inv()
      modifies mem`regions, mem`bytes
      ensures Inv() && SameInfos(old(mem.regions), mem.regions)
      ensures ok <==> old(Writable(addressOut, 8)) && old(Writable(sizeOut, 8))
      ensures ok ==> Word(sizeOut, best) && WordBut(addressOut, at, sizeOut)
      ensures Frame(old(Seen()), Seen(), addressOut, addressOut + 8, sizeOut, sizeOut + 8)
    {
      ok := WriteU64(addressOut, at);
      ghost var mid := Seen();
      FrameSwap(old(Seen()), mid, addressOut, addressOut + 8);
      FrameWider(old(Seen()), mid, addressOut, addressOut + 8, sizeOut, sizeOut + 8);
      if !ok { return; }
      ok := WriteU64(sizeOut, best);
      FrameWider(mid, Seen(), addressOut, addressOut + 8, sizeOut, sizeOut + 8);
      FrameTwice(old(Seen()), mid, Seen(), addressOut, addressOut + 8, sizeOut, sizeOut + 8);
      FrameKeepsStored(mid, Seen(), mem.Native(), sizeOut, sizeOut + 8, addressOut, ToLe(at, 8));
    }

    /** Reports the longest free aligned range of the window. */
    method AvailableDirect(searchStart: int, searchEnd: int, alignment: U64, addressOut: U64, sizeOut: U64)
      returns (r: Status, at: U64, best: U64)
      requires Inv()
      modifies mem`regions, mem`bytes
      ensures Inv() && SameInfos(old(mem.regions), mem.regions)
      ensures r.Done? ==>
                var unit := Unit(alignment);
                && best > 0 && FreeSpot(allocs, old(mem.regions), managedBase, Clip(searchStart), Clip(searchEnd), unit,
                                        best, at)
                && forall a, size :: size > best ==>
                                       !FreeSpot(allocs, old(mem.regions), managedBase, Clip(searchStart),
                                                 Clip(searchEnd), unit, size, a)
      ensures r.Done? ==> Word(sizeOut, best) && WordBut(addressOut, at, sizeOut)
      ensures Frame(old(Seen()), Seen(), addressOut, addressOut + 8, sizeOut, sizeOut + 8)
      ensures r == Fail(ENOMEM) ==>
                forall a, size :: size > 0 ==>
                                    !FreeSpot(allocs, old(mem.regions), managedBase, Clip(searchStart), Clip(searchEnd),
                                              Unit(alignment), size, a)
      ensures r == Fail(EINVAL) <==> !old(Writable(addressOut, 8)) || !old(Writable(sizeOut, 8)) || searchStart < 0
                                     || searchEnd < 0
                                     || searchStart >= searchEnd || !GoodAlignment(alignment)
      ensures r.Fail? ==> (r.code == EINVAL || r.code == ENOMEM) && Seen() == old(Seen())
    {
      at, best := 0, 0;
      var w1 := GuestWritable(addressOut, 8);
      var w2 := GuestWritable(sizeOut, 8);
      if !w1 || !w2 || searchStart < 0 || searchEnd < 0 || searchStart >= searchEnd
         || !GoodAlignment(alignment) {
        return Fail(EINVAL), 0, 0;
      }
      at, best := LongestIn(Clip(searchStart), Clip(searchEnd), Unit(alignment));
      if best == 0 { return Fail(ENOMEM), 0, 0; }
      var ok := Answer(addressOut, at, sizeOut, best);
      r := if ok then Done else Fail(EFAULT);
    }

    /** The longest free range of a window that may be empty. */
    method LongestIn(start: int, end: int, unit: U64) returns (at: U64, best: U64)
      requires Inv() && 0 <= end <= Capacity() && unit > 0
      ensures best > 0 ==> FreeSpot(allocs, mem.regions, managedBase, start, end, unit, best, at)
      ensures forall a, size :: size > best ==> !FreeSpot(allocs, mem.regions, managedBase, start, end, unit, size, a)
    {
      if start < 0 || start >= end { return 0, 0; }
      at, best := FindLongest(start, end, unit);
    }

    /** Whether everything mapped over the segments is direct memory at its canonical place. */
    method OnlyDirectIn(segs: seq<Range>, s: seq<Info>) returns (ok: bool)
      ensures ok <==> AllAtHome(s, segs, managedBase)
    {
      for j := 0 to |segs|
        invariant AllAtHome(s, segs[..j], managedBase)
      {
        var lo, hi := managedBase + segs[j].lo, managedBase + segs[j].hi;
        for i := 0 to |s|
          invariant forall k :: 0 <= k < i && Overlaps(s[k], lo, hi) ==> AtHome(s[k], managedBase)
        {
          if Overlaps(s[i], lo, hi) && !AtHome(s[i], managedBase) { return false; }
        }
      }
      assert segs[..|segs|] == segs;
      return true;
    }

    /** Takes a range of the direct window out; no flexible byte is there. */
    method DropDirect(lo: U64, hi: U64) returns (ok: bool)
      requires Inv() && lo < hi <= managedBase + Capacity() && Aligned(lo, GUEST_PAGE) && Aligned(hi, GUEST_PAGE)
      modifies mem`regions, mem`pages, mem`asked
      ensures Inv()
      ensures if ok then Removed(old(mem.regions), mem.regions, lo, hi) && Spares(old(mem.regions), mem.regions, lo, hi)
              else mem.regions == old(mem.regions)
      ensures mem.Answers() ==>
                (ok <==> (mem.Native() ==> MetOnPages(old(mem.regions), lo, hi, mem.arena.value, mem.page)))
    {
      assert forall a :: lo <= a < hi ==> !FlexAt(mem.regions, a);
      CountNone(mem.regions, lo, hi);
      ok := mem.UnmapRange(lo, hi - lo);
      if ok { BooksAfterRemove(old(mem.regions), mem.regions, Window(), allocs, flexUsed, lo, hi, 0); }
    }

    /** A segment of direct memory consists of whole host pages. */
    lemma SegmentOnPages(before: Table, segs: seq<Range>, i: nat)
      requires Inv() && mem.Native() && Obliging() && ValidSegs(segs, Capacity()) && i < |segs|
      requires DirectOver(before, segs, managedBase)
      requires DroppedSegs(before, mem.regions, segs[..i], managedBase)
      ensures MetOnPages(mem.regions, managedBase + segs[i].lo, managedBase + segs[i].hi, mem.arena.value, mem.page)
    {
      var lo, hi := managedBase + segs[i].lo, managedBase + segs[i].hi;
      AlignedSum(managedBase, segs[i].lo, GUEST_PAGE);
      AlignedSum(managedBase, segs[i].hi, GUEST_PAGE);
      assert DirectOver(mem.regions, segs, managedBase);
      forall k | k in mem.regions && Meets(mem.regions[k], lo, hi) ensures mem.regions[k].info.kind == Direct {
        OverSegment(mem.regions, mem.Native(), Window(), allocs, segs, i, k);
      }
      DirectMetOnPages(mem.regions, mem.arena.value, mem.page, lo, hi);
    }

    /** Unmaps the canonical addresses of the segments, in order; stops if the host refuses. */
    method DropSegments(segs: seq<Range>) returns (ok: bool, ghost n: nat)
      requires Inv() && ValidSegs(segs, Capacity()) && DirectOver(mem.regions, segs, managedBase)
      modifies mem`regions, mem`pages, mem`asked
      ensures Inv() && n <= |segs| && (ok ==> n == |segs|)
      ensures DroppedSegs(old(mem.regions), mem.regions, segs[..n], managedBase)
      ensures Obliging() ==> ok
    {
      n := 0;
      for i := 0 to |segs|
        invariant Inv() && n == i && DroppedSegs(old(mem.regions), mem.regions, segs[..i], managedBase)
      {
        ghost var before := mem.regions;
        AlignedSum(managedBase, segs[i].lo, GUEST_PAGE);
        AlignedSum(managedBase, segs[i].hi, GUEST_PAGE);
        if mem.Native() && Obliging() { SegmentOnPages(old(mem.regions), segs, i); }
        ok := DropDirect(managedBase + segs[i].lo, managedBase + segs[i].hi);
        if !ok { return; }
        DroppedMore(old(mem.regions), before, mem.regions, segs, i, managedBase);
        n := n + 1;
      }
      ok := true;
    }

    /** Whole guest pages within the direct capacity. */
    predicate Releasable(physical: U64, size: U64)
      reads `flexCapacity
    {
      Aligned(physical, GUEST_PAGE) && Aligned(size, GUEST_PAGE) && physical + size <= Capacity()
    }

    /** Releases the allocated part of a physical range. On success exactly that part leaves the allocated set and its
        canonical addresses are unmapped; mappings elsewhere in the range stay. */
    method ReleaseDirect(physical: U64, size: U64, checked: bool) returns (r: Status)
      requires Inv()
      modifies mem`regions, mem`pages, mem`asked, `allocs
      ensures Inv()
      ensures r.Done? ==> ReleasedAllocs(old(allocs), allocs, physical, physical + size)
      ensures r.Done? ==> Unmapped(old(mem.regions), mem.regions, old(allocs), managedBase, physical, physical + size)
      ensures r.Fail? ==> allocs == old(allocs)
      ensures r.Fail? && r.code != ENOMEM ==> mem.regions == old(mem.regions)
      ensures r == Fail(ENOMEM) ==>
                exists top :: physical <= top <= physical + size
                              && Unmapped(old(mem.regions), mem.regions, allocs, managedBase, physical, top)
      ensures r.Fail? ==> r.code == EINVAL || r.code == ENOENT || r.code == ENOTSUP || r.code == ENOMEM
      ensures r == Fail(ENOTSUP) <==>
              0 < size && Releasable(physical, size)
              && (checked ==> AllAllocated(old(allocs), physical, physical + size))
              && Foreign(old(mem.regions), old(allocs), managedBase, physical, physical + size)
      ensures Obliging() ==> r != Fail(ENOMEM)
      ensures r == Fail(EINVAL) <==> 0 < size && !Releasable(physical, size)
      ensures r == Fail(ENOENT) <==> 0 < size && Releasable(physical, size) && checked
                                     && !AllAllocated(old(allocs), physical, physical + size)
    {
      if size == 0 { return Done; }
      if !Aligned(physical, GUEST_PAGE) || !Aligned(size, GUEST_PAGE) || physical + size > Capacity() {
        return Fail(EINVAL);
      }
      if checked {
        var all := HasAllocation(allocs, Capacity(), physical, size);
        if !all { return Fail(ENOENT); }
      }
      AlignedSum(physical, size, GUEST_PAGE);
      r := ReleaseIn(physical, physical + size);
    }

    method ReleaseIn(lo: U64, hi: U64) returns (r: Status)
      requires Inv() && lo < hi <= Capacity() && Aligned(lo, GUEST_PAGE) && Aligned(hi, GUEST_PAGE)
      modifies mem`regions, mem`pages, mem`asked, `allocs
      ensures Inv()
      ensures r.Done? ==> ReleasedAllocs(old(allocs), allocs, lo, hi)
      ensures r.Done? ==> Unmapped(old(mem.regions), mem.regions, old(allocs), managedBase, lo, hi)
      ensures r.Fail? ==> allocs == old(allocs) && (r.code == ENOTSUP || r.code == ENOMEM)
      ensures r.Fail? && r.code != ENOMEM ==> mem.regions == old(mem.regions)
      ensures r == Fail(ENOTSUP) <==> Foreign(old(mem.regions), old(allocs), managedBase, lo, hi)
      ensures Obliging() ==> r != Fail(ENOMEM)
      ensures r == Fail(ENOMEM) ==>
                exists top :: lo <= top <= hi && Unmapped(old(mem.regions), mem.regions, allocs, managedBase, lo, top)
    {
      var next, segs := PlanRelease(allocs, Capacity(), lo, hi);
      TrimReleases(allocs, lo, hi);
      if segs == [] {
        NothingReleased(allocs, segs, lo, hi);
        DirectOverIs(mem.regions, allocs, segs, managedBase, lo, hi);
        return Done;
      }
      DirectOverIs(mem.regions, allocs, segs, managedBase, lo, hi);
      var s := mem.Infos();
      var direct := OnlyDirectIn(segs, s);
      if !direct {
        if DirectOver(mem.regions, segs, managedBase) {
          DirectAtHome(mem.regions, mem.Native(), s, Window(), allocs, segs);
        }
        return Fail(ENOTSUP);
      }
      AtHomeDirect(mem.regions, mem.Native(), s, segs, managedBase);
      var ok;
      ghost var n;
      ok, n := DropSegments(segs);
      if !ok {
        SomeReleased(old(mem.regions), mem.regions, segs, n, allocs, managedBase, lo, hi);
        return Fail(ENOMEM);
      }
      assert segs[..n] == segs;
      SegsAreReleased(old(mem.regions), mem.regions, segs, allocs, managedBase, lo, hi);
      BooksAfterTrim(mem.regions, Window(), allocs, flexUsed, lo, hi);
      allocs := next;
      return Done;
    }

    /** Makes room for a direct mapping: only direct memory may be in the way. */
    method ClearWay(lo: U64, hi: U64, noOverwrite: bool) returns (r: Status)
      requires Inv() && lo < hi <= managedBase + Capacity() && Aligned(lo, GUEST_PAGE) && Aligned(hi, GUEST_PAGE)
      modifies mem`regions, mem`pages, mem`asked
      ensures Inv()
      ensures r.Done? ==> Removed(old(mem.regions), mem.regions, lo, hi)
                          && Spares(old(mem.regions), mem.regions, lo, hi)
                          && Free(mem.regions, lo, hi) && (noOverwrite ==> Free(old(mem.regions), lo, hi))
                          && OnlyKinds(old(mem.regions), lo, hi, {Direct})
      ensures r.Fail? ==> mem.regions == old(mem.regions) && (r.code == ENOMEM || r.code == ENOTSUP)
      ensures r == Fail(ENOTSUP) <==> !noOverwrite && !OnlyKinds(old(mem.regions), lo, hi, {Direct})
      ensures mem.Answers() && Yields(old(mem.regions), lo, hi, noOverwrite, {Direct}) ==> r.Done?
      ensures Obliging() && r == Fail(ENOMEM) ==> noOverwrite && !Free(old(mem.regions), lo, hi)
    {
      var s := mem.Infos();
      var met := AnyOverlap(s, lo, hi);
      OverlapsAre(mem.regions, s, lo, hi, {Direct});
      if !met {
        FreeRemoved(mem.regions, lo, hi);
        return Done;
      }
      if noOverwrite { return Fail(ENOMEM); }
      var direct := AllOverlapsIn(s, lo, hi, {Direct});
      if !direct { return Fail(ENOTSUP); }
      if Obliging() && mem.Native() { DirectMetOnPages(mem.regions, mem.arena.value, mem.page, lo, hi); }
      var ok := DropDirect(lo, hi);
      if ok { RemovedFree(old(mem.regions), mem.regions, mem.Native(), lo, hi); }
      return if ok then Done else Fail(ENOMEM);
    }

    /** What is in [lo, hi) can make way: nothing, or only regions of these kinds, in whole pages, to be overwritten. */
    ghost predicate Yields(rs: Table, lo: int, hi: int, noOverwrite: bool, kinds: set<Kind>)
      requires mem.page > 0
    {
      Free(rs, lo, hi)
      || (!noOverwrite && OnlyKinds(rs, lo, hi, kinds)
          && (mem.Native() ==> MetOnPages(rs, lo, hi, mem.arena.value, mem.page)))
    }

    /** Adds a direct region whose physical range is allocated with its memory type. */
    method AddDirect(info: Info) returns (ok: bool)
      requires Inv() && info.kind == Direct && managedBase <= info.base && info.offset == info.base - managedBase
      requires AllOfType(allocs, info.offset, info.offset + info.size, info.memoryType)
               && Aligned(info.base, GUEST_PAGE) && Aligned(info.size, GUEST_PAGE)
      modifies mem`regions, mem`pages, mem`asked
      ensures Inv()
      ensures ok ==> Installed(info) && (mem.Native() ==> mem.InOrder(info.base, info.size))
      ensures !ok ==> mem.regions == old(mem.regions)
      ensures Frame(old(Seen()), Seen(), info.base, info.base + info.size, 0, 0)
      ensures mem.Answers() ==> (ok <==> Mappable(old(mem.regions), info.base, info.size))
    {
      ok := mem.Map(info);
      if ok {
        ghost var r: Region :| r.info == info && mem.regions == old(mem.regions)[info.base := r]
                               && Added(old(mem.regions), mem.regions, r);
        BooksAfterDirect(old(mem.regions), mem.regions, r, Window(), allocs, flexUsed);
        assert info.base in old(mem.regions) ==> Meets(old(mem.regions)[info.base], info.base, info.base + info.size);
        FrameOne(old(Seen()), Seen(), info.base, info.base, info.base + info.size, 0, 0);
      }
    }

    /** Writes the result to the guest, or takes the new region out again. */
    method Report(slot: U64, base: U64, size: nat) returns (ok: bool)
      requires Inv() && base in mem.regions && mem.regions[base].info.size == size
               && (mem.Native() ==> mem.InOrder(base, size))
      requires mem.regions[base].info.kind != Flexible && WholeRegion(mem.regions[base])
      modifies mem
      ensures Inv()
      ensures ok <==> old(Writable(slot, 8))
      ensures ok ==> SameInfos(old(mem.regions), mem.regions) && Word(slot, base)
                     && Frame(old(Seen()), Seen(), 0, 0, slot, slot + 8)
      ensures !ok ==> Removed(old(mem.regions), mem.regions, base, base + size) && mem.bytes == old(mem.bytes)
    {
      ok := WriteU64(slot, base);
      if !ok { Withdraw(base, size, flexUsed); }
    }

    /** The direct region in place of the direct memory that was in its way; no byte moves. */
    method PlaceDirect(info: Info, noOverwrite: bool, ghost fits: bool) returns (r: Status)
      requires fits ==> (mem.page > 0 && Yields(mem.regions, info.base, info.base + info.size, noOverwrite, {Direct})
                         && (mem.Native() ==> mem.InOrder(info.base, info.size)))
      requires Inv() && info.kind == Direct && managedBase <= info.base && info.offset == info.base - managedBase
      requires 0 < info.size && info.base + info.size <= managedBase + Capacity()
      requires AllOfType(allocs, info.offset, info.offset + info.size, info.memoryType)
               && Aligned(info.base, GUEST_PAGE) && Aligned(info.size, GUEST_PAGE)
      modifies mem`regions, mem`pages, mem`asked
      ensures Inv()
      ensures r.Done? ==> info.base in mem.regions && mem.regions[info.base].info == info
                          && (mem.Native() ==> mem.InOrder(info.base, info.size))
                          && Spares(old(mem.regions), mem.regions, info.base, info.base + info.size)
                          && Frame(old(Seen()), Seen(), info.base, info.base + info.size, 0, 0)
                          && Displaces(old(mem.regions), info.base, info.base + info.size, noOverwrite)
      ensures r.Fail? ==> Lost(old(mem.regions), mem.regions, info.base, info.size, noOverwrite, {Direct})
                          && (r.code == ENOMEM || r.code == ENOTSUP)
                          && (r.code != ENOMEM ==> mem.regions == old(mem.regions))
      ensures r == Fail(ENOTSUP) <==>
              !noOverwrite && !OnlyKinds(old(mem.regions), info.base, info.base + info.size, {Direct})
      ensures mem.Answers() && fits ==> r.Done?
      ensures Obliging() && r == Fail(ENOMEM) ==>
                noOverwrite && !Free(old(mem.regions), info.base, info.base + info.size)
    {
      AlignedSum(info.base, info.size, GUEST_PAGE);
      if Obliging() { DirectInOrder(info.base, info.size, GUEST_PAGE); }
      r := ClearWay(info.base, info.base + info.size, noOverwrite);
      if r.Fail? { return; }
      ghost var cleared := Seen();
      var ok := AddDirect(info);
      if ok {
        SparesMore(old(mem.regions), cleared.regions, mem.regions, info.base, info.base, info.base + info.size);
        FrameRemoved(old(Seen()), cleared, info.base, info.base + info.size, 0, 0);
        FrameTwice(old(Seen()), cleared, Seen(), info.base, info.base + info.size, 0, 0);
      }
      return if ok then Done else Fail(ENOMEM);
    }

    /** Maps allocated direct memory at its canonical address. */
    method MapDirectAt(slot: U64, info: Info, noOverwrite: bool, ghost fits: bool) returns (r: Status)
      requires fits ==> FitsDirect(slot, info.base, info.size, noOverwrite)
      requires Inv() && info.kind == Direct && managedBase <= info.base && info.offset == info.base - managedBase
      requires 0 < info.size && info.base + info.size <= managedBase + Capacity()
      requires AllOfType(allocs, info.offset, info.offset + info.size, info.memoryType)
               && Aligned(info.base, GUEST_PAGE) && Aligned(info.size, GUEST_PAGE)
      modifies mem
      ensures Inv()
      ensures r.Done? ==> info.base in mem.regions && mem.regions[info.base].info == info && Word(slot, info.base)
                          && Outside(old(mem.regions), mem.regions, info.base, info.base + info.size)
                          && Frame(old(Seen()), Seen(), info.base, info.base + info.size, slot, slot + 8)
                          && BytesKept(old(mem.bytes), mem.bytes, 0, 0, slot, slot + 8)
                          && Displaces(old(mem.regions), info.base, info.base + info.size, noOverwrite)
      ensures r.Fail? ==> Lost(old(mem.regions), mem.regions, info.base, info.size, noOverwrite, {Direct})
                          && mem.bytes == old(mem.bytes)
                          && (r.code == ENOTSUP ==> mem.regions == old(mem.regions))
                          && DirectCode(old(mem.regions), slot, info.base, info.base + info.size, noOverwrite,
                                        Obliging(), r.code)
      ensures mem.Answers() && fits ==> r.Done?
    {
      r := PlaceDirect(info, noOverwrite, fits);
      if r.Fail? { return; }
      ghost var lo, hi := info.base, info.base + info.size;
      ghost var added := Seen();
      if SlotClear(old(mem.regions), slot, lo, hi) { SlotStays(old(mem.regions), mem.regions, slot, lo, hi); }
      var ok := Report(slot, info.base, info.size);
      if ok {
        FrameWord(old(Seen()), added, Seen(), lo, hi, slot, slot + 8);
        FrameOutside(old(Seen()), added, lo, hi);
        OutsideInfos(added.regions, mem.regions, lo, hi);
        OutsideTwice(old(mem.regions), added.regions, mem.regions, lo, hi);
      } else {
        FrameThenRemoved(old(Seen()), added, mem.regions, lo, hi);
      }
      return if ok then Done else Fail(EFAULT);
    }

    /** map_direct_memory: only a range allocated throughout with one memory type, only at its canonical address. */
    method MapDirect(slot: U64, size: U64, g: GuestProt, noOverwrite: bool, flagsUnknown: bool, physical: int,
                     alignment: U64, name: Name)
      returns (r: Status, ghost requested: U64)
      requires Inv()
      modifies mem
      ensures Inv()
      ensures r.Done? ==> CpuProtection(g).Some? && DirectArguments(size, g, flagsUnknown, physical, alignment)
                          && GoodName(name) && old(Word(slot, requested))
                          && GotDirect(old(Seen()), Seen(), mem.Native(), Window(), allocs, slot, size, physical,
                                       CpuProtection(g).value, noOverwrite)
                          && Canonical(physical, Unit(alignment), requested)
                          && Labelled(managedBase + physical, NameOr(name, "direct"), g.accel)
      ensures r.Fail? ==> mem.bytes == old(mem.bytes)
                          && Lost(old(mem.regions), mem.regions, managedBase + physical, size, noOverwrite, {Direct})
      ensures r.Fail? && r.code != ENOMEM && r.code != EFAULT ==> mem.regions == old(mem.regions)
      ensures r == Fail(EINVAL) <==> !old(Writable(slot, 8))
                                     || !DirectArguments(size, g, flagsUnknown, physical, alignment)
      ensures r.Fail? && r.code != EINVAL && !GoodName(name) ==> r.code == NameCode(name)
      ensures r.Fail? && r.code != EINVAL && GoodName(name) ==>
                if Untyped(physical, size) then r.code == EACCES
                else old(Word(slot, requested))
                     && if !Canonical(physical, Unit(alignment), requested) then r.code == ENOTSUP
                        else DirectCode(old(mem.regions), slot, managedBase + physical, managedBase + physical + size,
                                        noOverwrite, Obliging(), r.code)
      ensures Obliging() && r != Fail(EINVAL) && GoodName(name) ==>
                old(Word(slot, requested))
                && (old(DirectReady(slot, size, physical, Unit(alignment), noOverwrite, requested)) ==> r.Done?)
    {
      requested := 0;
      var writable := GuestWritable(slot, 8);
      if !writable || !DirectArguments(size, g, flagsUnknown, physical, alignment) { return Fail(EINVAL), 0; }
      var asked := ReadU64(slot);
      if asked.None? || name.Unreadable? { return Fail(EFAULT), 0; }
      requested := asked.value;
      if name.Given? && |name.text| >= 32 { return Fail(ENAMETOOLONG), requested; }
      UnitAligned(alignment);
      r := MapCovered(slot, size, CpuProtection(g).value, g.accel, noOverwrite, physical, Unit(alignment), asked.value,
                      NameOr(name, "direct"));
    }

    method MapCovered(slot: U64, size: U64, prot: Prot, accel: int, noOverwrite: bool, physical: U64, unit: U64,
                      requested: U64, name: string)
      returns (r: Status)
      requires Inv() && 0 < size && Aligned(size, GUEST_PAGE) && unit > 0 && Aligned(unit, GUEST_PAGE)
      modifies mem
      ensures Inv()
      ensures r.Done? ==> GotDirect(old(Seen()), Seen(), mem.Native(), Window(), allocs, slot, size, physical, prot,
                                    noOverwrite)
                          && Canonical(physical, unit, requested)
                          && Labelled(managedBase + physical, name, accel)
      ensures r.Fail? ==> mem.bytes == old(mem.bytes)
                          && Lost(old(mem.regions), mem.regions, managedBase + physical, size, noOverwrite, {Direct})
      ensures r.Fail? && r.code != ENOMEM && r.code != EFAULT ==> mem.regions == old(mem.regions)
      ensures r == Fail(EACCES) <==> Untyped(physical, size)
      ensures r.Fail? && r.code != EACCES ==>
                if !Canonical(physical, unit, requested) then r.code == ENOTSUP
                else DirectCode(old(mem.regions), slot, managedBase + physical, managedBase + physical + size,
                                noOverwrite, Obliging(), r.code)
      ensures Obliging() && old(DirectReady(slot, size, physical, unit, noOverwrite, requested)) ==> r.Done?
    {
      var t;
      r, t := DirectType(physical, size, unit, requested);
      if r.Fail? { return; }
      AlignedCoarse(managedBase + physical, unit, GUEST_PAGE);
      if Obliging() { DirectInOrder(managedBase + physical, size, unit); }
      r := MapTyped(slot, size, prot, accel, noOverwrite, physical, t, name,
                    FitsDirect(slot, managedBase + physical, size, noOverwrite));
    }

    /** The range is not allocated throughout with one memory type. */
    ghost predicate Untyped(physical: int, size: int)
      reads this
    {
      physical + size > Capacity() || NoType(allocs, physical, physical + size)
    }

    /** The canonical address of the range is aligned, and the slot names it or leaves it open. */
    ghost predicate Canonical(physical: int, unit: int, requested: int)
      requires unit > 0
      reads this
    {
      Aligned(managedBase + physical, unit) && (requested == 0 || requested == managedBase + physical)
    }

    /** The region at `at` is a committed one with this name and these accelerator rights. */
    ghost predicate Labelled(at: int, name: string, accel: int)
      reads mem
    {
      at in mem.regions
      && var i := mem.regions[at].info; i.base == at && i.name == name && i.aux == accel && i.committed
    }

    /** The memory type of an allocated range, if its canonical address may be used. */
    method DirectType(physical: U64, size: U64, unit: U64, requested: U64) returns (r: Status, t: int)
      requires Inv() && 0 < size && unit > 0
      ensures r.Done? ==> physical + size <= Capacity() && AllOfType(allocs, physical, physical + size, t)
                          && Canonical(physical, unit, requested)
      ensures r == Fail(EACCES) <==> Untyped(physical, size)
      ensures r.Fail? && r.code != EACCES ==> r.code == ENOTSUP && !Canonical(physical, unit, requested)
    {
      var kind := Covered(allocs, Capacity(), physical, size);
      if kind.None? { return Fail(EACCES), 0; }
      var canonical := managedBase + physical;
      if !Aligned(canonical, unit) || (requested != 0 && requested != canonical) { return Fail(ENOTSUP), 0; }
      return Done, kind.value;
    }

    /** Guest pages of the window are in order for the host. */
    lemma DirectInOrder(lo: int, size: int, unit: int)
      requires Inv() && Obliging() && unit > 0 && Aligned(unit, GUEST_PAGE) && Aligned(lo, unit)
      requires managedBase <= lo && 0 < size && lo + size <= managedBase + managedSize && Aligned(size, GUEST_PAGE)
      ensures mem.Native() ==> mem.InOrder(lo, size)
    {
      if mem.Native() {
        AlignedCoarse(lo, unit, GUEST_PAGE);
        GuestPagesRequestable(mem.arena.value, mem.page, lo, size);
      }
    }

    /** A direct mapping of memory allocated with type `t` throughout. */
    method MapTyped(slot: U64, size: U64, prot: Prot, accel: int, noOverwrite: bool, physical: U64, t: int,
                    name: string, ghost fits: bool)
      returns (r: Status)
      requires fits ==> FitsDirect(slot, managedBase + physical, size, noOverwrite)
      requires Inv() && 0 < size && physical + size <= Capacity() && AllOfType(allocs, physical, physical + size, t)
               && Aligned(managedBase + physical, GUEST_PAGE) && Aligned(size, GUEST_PAGE)
      modifies mem
      ensures Inv()
      ensures r.Done? ==> GotDirect(old(Seen()), Seen(), mem.Native(), Window(), allocs, slot, size, physical, prot,
                                    noOverwrite)
      ensures r.Fail? ==> mem.bytes == old(mem.bytes)
                          && Lost(old(mem.regions), mem.regions, managedBase + physical, size, noOverwrite, {Direct})
                          && (r.code == ENOTSUP ==> mem.regions == old(mem.regions))
                          && DirectCode(old(mem.regions), slot, managedBase + physical, managedBase + physical + size,
                                        noOverwrite, Obliging(), r.code)
      ensures r.Done? ==> mem.regions[managedBase + physical].info
                          == Info(managedBase + physical, size, prot, name, physical, t, Direct, true, accel)
      ensures mem.Answers() && fits ==> r.Done?
    {
      r := MapDirectAt(slot, Info(managedBase + physical, size, prot, name, physical, t, Direct, true, accel),
                       noOverwrite, fits);
    }

    /** What there is at the target can make way, the arena can open its pages, and the slot stays. */
    ghost predicate FitsDirect(slot: int, lo: int, size: int, noOverwrite: bool)
      reads mem
    {
      && mem.page > 0 && Yields(mem.regions, lo, lo + size, noOverwrite, {Direct})
      && (mem.Native() ==> mem.InOrder(lo, size)) && SlotClear(mem.regions, slot, lo, lo + size)
    }

    /** Everything is in place for a direct mapping: allocated memory of one type, at an address that its alignment and
        the slot allow, where what there is can make way, and a slot that stays. */
    ghost predicate DirectReady(slot: U64, size: U64, physical: int, unit: int, noOverwrite: bool, requested: int)
      requires unit > 0 && mem.page > 0
      reads this, mem
    {
      var lo := managedBase + physical;
      && physical + size <= Capacity() && !NoType(allocs, physical, physical + size)
      && Aligned(lo, unit) && (requested == 0 || requested == lo)
      && Yields(mem.regions, lo, lo + size, noOverwrite, {Direct}) && SlotClear(mem.regions, slot, lo, lo + size)
    }

    // ---- Flexible memory ------------------------------------------------

    /** Free bytes of the flexible budget. */
    function Available(): (n: int)
      reads this
      ensures flexUsed <= flexCapacity ==> n == flexCapacity - flexUsed
    {
      flexCapacity - (if flexUsed < flexCapacity then flexUsed else flexCapacity)
    }

    /** A target in the flexible window, with the budget for `size` more bytes. */
    predicate Target(target: int, size: int)
      reads this
    {
      FlexBase(Window()) <= target && target + size <= FlexEnd(Window()) && flexUsed + size <= flexCapacity
    }

    /** MAP_FIXED: replaces flexible memory and reservations only; what is replaced returns to the budget first. */
    method ReplaceFlexible(lo: U64, hi: U64, noOverwrite: bool, ghost ready: bool) returns (r: Status)
      requires ready ==> mem.page > 0 && Yields(mem.regions, lo, hi, noOverwrite, {Flexible, Reserved})
                         && hi - lo <= Available() + Count(mem.regions, lo, hi)
      requires Inv() && lo < hi && FlexBase(Window()) <= lo && hi <= FlexEnd(Window())
               && Aligned(lo, GUEST_PAGE) && Aligned(hi, GUEST_PAGE)
      modifies mem`regions, mem`pages, mem`asked, `flexUsed
      ensures Inv()
      ensures if r.Done? then Target(lo, hi - lo) && Removed(old(mem.regions), mem.regions, lo, hi)
              else mem.regions == old(mem.regions) && flexUsed == old(flexUsed)
      ensures r.Done? && noOverwrite ==> Free(old(mem.regions), lo, hi)
      ensures r.Done? ==> Spares(old(mem.regions), mem.regions, lo, hi) && Free(mem.regions, lo, hi)
                          && OnlyKinds(old(mem.regions), lo, hi, {Flexible, Reserved})
      ensures r.Fail? ==> r.code == if !noOverwrite && !OnlyKinds(old(mem.regions), lo, hi, {Flexible, Reserved})
                                    then ENOTSUP else ENOMEM
      ensures mem.Answers() && ready ==> r.Done?
    {
      var s := mem.Infos();
      OverlapsAre(mem.regions, s, lo, hi, {Flexible, Reserved});
      if noOverwrite {
        var met := AnyOverlap(s, lo, hi);
        if met { return Fail(ENOMEM); }
      }
      var plain := AllOverlapsIn(s, lo, hi, {Flexible, Reserved});
      if !plain { return Fail(ENOTSUP); }
      var replaced := FlexibleIn(lo, hi);
      if hi - lo > Available() + replaced { return Fail(ENOMEM); }
      if Free(mem.regions, lo, hi) && mem.Native() { FreeOnPages(mem.regions, lo, hi, mem.arena.value, mem.page); }
      r := ReplaceIn(lo, hi);
    }

    method ReplaceIn(lo: U64, hi: U64) returns (r: Status)
      requires Aligned(lo, GUEST_PAGE) && Aligned(hi, GUEST_PAGE)
      requires Inv() && lo < hi && FlexBase(Window()) <= lo && hi <= FlexEnd(Window())
      requires hi - lo <= Available() + Count(mem.regions, lo, hi)
      modifies mem`regions, mem`pages, mem`asked, `flexUsed
      ensures Inv()
      ensures if r.Done? then Target(lo, hi - lo) && Removed(old(mem.regions), mem.regions, lo, hi)
              else r.code == ENOMEM && mem.regions == old(mem.regions) && flexUsed == old(flexUsed)
      ensures r.Done? ==> Spares(old(mem.regions), mem.regions, lo, hi) && Free(mem.regions, lo, hi)
      ensures mem.Answers() ==>
                (r.Done? <==> (mem.Native() ==> MetOnPages(old(mem.regions), lo, hi, mem.arena.value, mem.page)))
    {
      UsedAtMostCapacity(mem.regions, Window());
      var ok := Release(lo, hi);
      if !ok { return Fail(ENOMEM); }
      AfterRemove(old(mem.regions), mem.regions, Window(), allocs, lo, hi);
      RemovedFree(old(mem.regions), mem.regions, mem.Native(), lo, hi);
      return Done;
    }

    /** Without MAP_FIXED: the first fit in the window, within the budget. */
    method FitFlexible(size: U64) returns (at: Option<U64>)
      requires Inv() && 0 < size
      ensures at.Some? ==> Target(at.value, size) && FirstOpen(mem.regions, Window(), size, at.value)
      ensures at.None? ==> size > Available() || forall a :: !Open(mem.regions, Window(), size, a)
    {
      if size > Available() { return None; }
      UsedAtMostCapacity(mem.regions, Window());
      var s := mem.Infos();
      ListingInOrder(mem.regions, s, mem.Native());
      at := FirstFit(s, managedBase + (managedSize - flexCapacity), managedBase + managedSize, size);
      forall a ensures FlexPlace(s, FlexBase(Window()), FlexEnd(Window()), size, a)
                       <==> Open(mem.regions, Window(), size, a) {
        PlaceIsOpen(mem.regions, s, mem.Native(), Window(), size, a);
      }
    }

    /** Adds a flexible region in its window; it is mapped but not yet booked. */
    method AddFlexible(info: Info, ghost fits: bool) returns (ok: bool)
      requires Inv() && info.kind == Flexible && Target(info.base, info.size)
      requires fits ==> Mappable(mem.regions, info.base, info.size)
      modifies mem`regions, mem`pages, mem`asked
      ensures ok ==> InvWith(flexUsed + info.size) && Installed(info)
                     && (mem.Native() ==> mem.InOrder(info.base, info.size))
      ensures !ok ==> Inv() && mem.regions == old(mem.regions)
      ensures mem.Answers() && fits ==> ok
    {
      ok := mem.Map(info);
      if ok {
        ghost var r: Region :| r.info == info && mem.regions == old(mem.regions)[info.base := r]
                               && Added(old(mem.regions), mem.regions, r);
        BooksAfterAdd(old(mem.regions), mem.regions, r, Window(), allocs, flexUsed);
        assert info.base in old(mem.regions) ==> Meets(old(mem.regions)[info.base], info.base, info.base + info.size);
      }
    }

    /** Staged, cleared and given its final protection, or undone; still to be booked. */
    method SettleFlexible(info: Info, final: Prot, ghost fits: bool) returns (ok: bool)
      requires Inv() && info.kind == Flexible && info.prot == READ_WRITE && Target(info.base, info.size)
      requires fits ==> Mappable(mem.regions, info.base, info.size)
      modifies mem
      ensures ok ==> InvWith(flexUsed + info.size) && info.base in mem.regions
                     && mem.regions[info.base].info == info.(prot := final)
                     && (mem.Native() ==> mem.InOrder(info.base, info.size)) && Installed(info.(prot := final))
                     && Stored(mem.regions, mem.Native(), mem.bytes, info.base, Padded([], info.size))
      ensures !ok ==> Inv() && mem.regions == old(mem.regions)
      ensures BytesKept(old(mem.bytes), mem.bytes, info.base, info.base + info.size, 0, 0)
      ensures mem.Answers() && fits ==> ok
    {
      ok := AddFlexible(info, fits);
      ghost var before := mem.bytes;
      assert before == old(mem.bytes);
      if ok {
        ok := FinishFlexible(info, final, old(mem.regions));
        assert BytesKept(before, mem.bytes, info.base, info.base + info.size, 0, 0);
      }
    }

    /** Clears a flexible region just added to `before` and gives it its final protection, or takes it out again. */
    method FinishFlexible(info: Info, final: Prot, ghost before: Table) returns (ok: bool)
      requires InvWith(flexUsed + info.size) && info.kind == Flexible && info.prot == READ_WRITE
      requires OneMore(before, mem.regions, info.base) && mem.regions[info.base].info == info
      requires mem.Native() ==> mem.InOrder(info.base, info.size)
      modifies mem
      ensures ok ==> InvWith(flexUsed + info.size) && OneMore(before, mem.regions, info.base)
                     && mem.regions[info.base].info == info.(prot := final)
                     && Stored(mem.regions, mem.Native(), mem.bytes, info.base, Padded([], info.size))
      ensures !ok ==> Inv() && mem.regions == before
      ensures BytesKept(old(mem.bytes), mem.bytes, info.base, info.base + info.size, 0, 0)
      ensures mem.Answers() ==> ok
    {
      ok := true;
      Fill(info.base, info.size, [], flexUsed + info.size);
      if final != READ_WRITE {
        TakenBack(mem.regions, before, info.base);
        ok := Finish(info.base, info.size, final, Padded([], info.size), flexUsed + info.size);
      }
    }

    /** Maps and books flexible memory at its target. A clean-up takes the booking back. */
    method BookFlexible(slot: U64, info: Info, final: Prot, ghost fits: bool) returns (r: Status)
      requires Inv() && info.kind == Flexible && info.prot == READ_WRITE && Target(info.base, info.size)
      requires fits ==> Mappable(mem.regions, info.base, info.size)
      modifies mem, `flexUsed
      ensures Inv()
      ensures flexUsed == old(flexUsed) + if r.Done? then info.size else 0
      ensures r.Done? ==> info.base in mem.regions && mem.regions[info.base].info == info.(prot := final)
                          && Word(slot, info.base)
                          && ZeroBut(info.base, info.size, slot)
      ensures r.Fail? ==> mem.regions == old(mem.regions) && (r.code == ENOMEM || r.code == EFAULT)
                          && BytesKept(old(mem.bytes), mem.bytes, info.base, info.base + info.size, 0, 0)
      ensures r == Fail(EFAULT) ==> !old(Writable(slot, 8))
      ensures mem.Answers() && fits ==> r != Fail(ENOMEM)
      ensures Outside(old(mem.regions), mem.regions, info.base, info.base + info.size)
      ensures Frame(old(Seen()), Seen(), info.base, info.base + info.size, slot, slot + 8)
    {
      ghost var lo, hi := info.base, info.base + info.size;
      var ok := SettleFlexible(info, final, fits);
      if !ok { return Fail(ENOMEM); }
      ghost var mid := Seen();
      SettledFrame(old(Seen()), mid, lo, hi, slot, slot + 8);
      flexUsed := flexUsed + info.size;
      r := TellFlexible(slot, info.base, info.size);
      if r.Done? {
        ToldFrame(old(Seen()), mid, Seen(), mem.Native(), lo, hi, slot, slot + 8, Padded([], info.size));
      }
    }

    /** Writes the address of a booked flexible region to the guest, or takes region and booking back. */
    method TellFlexible(slot: U64, base: U64, size: nat) returns (r: Status)
      requires Inv() && base in mem.regions && mem.regions[base].info.size == size
               && mem.regions[base].info.kind == Flexible
      requires mem.Native() ==> mem.InOrder(base, size)
      modifies mem, `flexUsed
      ensures Inv()
      ensures r.Done? ==> flexUsed == old(flexUsed) && SameInfos(old(mem.regions), mem.regions) && Word(slot, base)
                          && Outside(old(mem.regions), mem.regions, base, base + size)
      ensures r.Done? ==> Frame(old(Seen()), Seen(), 0, 0, slot, slot + 8)
      ensures r.Fail? ==> flexUsed == old(flexUsed) - size && mem.regions == old(mem.regions) - {base}
                          && mem.bytes == old(mem.bytes) && r.code == EFAULT && !old(Writable(slot, 8))
    {
      var ok := WriteU64(slot, base);
      if ok {
        OutsideInfos(old(mem.regions), mem.regions, base, base + size);
        return Done;
      }
      Withdraw(base, size, flexUsed);
      flexUsed := flexUsed - size;
      return Fail(EFAULT);
    }

    /** Memory from `at` on is clear, but for the result word. */
    ghost predicate ZeroBut(at: int, size: nat, slot: int)
      reads mem
    {
      StoredBut(mem.regions, mem.Native(), mem.bytes, at, Padded([], size), slot, slot + 8)
    }

    /** Nothing has changed. */
    twostate predicate Untouched()
      reads this, mem
    {
      mem.regions == old(mem.regions) && mem.bytes == old(mem.bytes) && flexUsed == old(flexUsed)
    }

    /** Everything is in place for a flexible mapping: budget and window, something that can make way or a first fit
        that the arena can open, and a slot that stays. */
    ghost predicate FlexibleReady(slot: U64, size: U64, fixed: bool, noOverwrite: bool, requested: int)
      requires mem.page > 0
      reads this, mem
    {
      if fixed then
        && FlexBase(Window()) <= requested && requested + size <= FlexEnd(Window()) && Aligned(requested, GUEST_PAGE)
        && Yields(mem.regions, requested, requested + size, noOverwrite, {Flexible, Reserved})
        && size <= Available() + Count(mem.regions, requested, requested + size)
        && SlotClear(mem.regions, slot, requested, requested + size)
      else
        && size <= Available()
        && exists a :: FirstOpen(mem.regions, Window(), size, a) && Mappable(mem.regions, a, size)
    }

    /** map_flexible_memory: at the address in the slot with MAP_FIXED, else at the first fit. */
    method MapFlexible(slot: U64, size: U64, g: GuestProt, fixed: bool, noOverwrite: bool, flagsUnknown: bool,
                       name: Name)
      returns (r: Status, ghost at: int, ghost requested: U64)
      requires Inv()
      modifies mem, `flexUsed
      ensures Inv()
      ensures r.Done? ==> CpuProtection(g).Some? && FlexibleArguments(size, g, flagsUnknown) && GoodName(name)
                          && old(Writable(slot, 8)) && old(Word(slot, requested))
                          && GotFlexible(old(Seen()), Seen(), mem.Native(), Window(), slot, at, size,
                                         CpuProtection(g).value, fixed, noOverwrite, requested)
                          && Labelled(at, NameOr(name, "flexible"), g.accel)
      ensures r.Fail? ==> Untouched() || (old(Word(slot, requested))
                                          && LostFlexible(old(Seen()), Seen(), Window(), at, size, fixed, noOverwrite,
                                                          requested))
      ensures r.Fail? && r.code != ENOMEM && (fixed ==> r.code != EFAULT) ==> Untouched()
      ensures r.Fail? && !fixed ==> flexUsed == old(flexUsed)
      ensures r.Fail? && (!old(Writable(slot, 8)) || !FlexibleArguments(size, g, flagsUnknown)) ==> r.code == EINVAL
      ensures r.Fail? && old(Writable(slot, 8)) && FlexibleArguments(size, g, flagsUnknown) ==>
                if !GoodName(name) then r.code == NameCode(name)
                else old(Word(slot, requested))
                     && FlexibleCode(old(mem.regions), Window(), slot, requested, size, fixed, noOverwrite, r.code)
      ensures Obliging() && old(Writable(slot, 8)) && FlexibleArguments(size, g, flagsUnknown) && GoodName(name) ==>
                old(Word(slot, requested))
                && (old(FlexibleReady(slot, size, fixed, noOverwrite, requested)) ==> r.Done?)
    {
      at, requested := 0, 0;
      var writable := GuestWritable(slot, 8);
      if !writable || !FlexibleArguments(size, g, flagsUnknown) { return Fail(EINVAL), 0, 0; }
      r, at, requested := MapFlexibleNamed(slot, size, CpuProtection(g).value, g.accel, fixed, noOverwrite, name);
    }

    method MapFlexibleNamed(slot: U64, size: U64, prot: Prot, accel: int, fixed: bool, noOverwrite: bool, name: Name)
      returns (r: Status, ghost at: int, ghost requested: U64)
      requires Inv() && 0 < size && Aligned(size, GUEST_PAGE) && Writable(slot, 8)
      modifies mem, `flexUsed
      ensures Inv() && old(Word(slot, requested))
      ensures r.Done? ==> GoodName(name)
                          && GotFlexible(old(Seen()), Seen(), mem.Native(), Window(), slot, at, size, prot, fixed,
                                         noOverwrite, requested) && Labelled(at, NameOr(name, "flexible"), accel)
      ensures r.Fail? ==> Untouched()
                          || LostFlexible(old(Seen()), Seen(), Window(), at, size, fixed, noOverwrite, requested)
      ensures r.Fail? && r.code != ENOMEM && (fixed ==> r.code != EFAULT) ==> Untouched()
      ensures r.Fail? && !fixed ==> flexUsed == old(flexUsed)
      ensures r.Fail? ==>
                if !GoodName(name) then r.code == NameCode(name)
                else FlexibleCode(old(mem.regions), Window(), slot, requested, size, fixed, noOverwrite, r.code)
      ensures Obliging() && GoodName(name) && old(FlexibleReady(slot, size, fixed, noOverwrite, requested)) ==> r.Done?
    {
      at := 0;
      var asked := ReadU64(slot);  // what can be written can be read
      requested := asked.value;
      if name.Unreadable? { return Fail(EFAULT), 0, requested; }
      if name.Given? && |name.text| >= 32 { return Fail(ENAMETOOLONG), 0, requested; }
      r, at := MapFlexibleIn(slot, size, prot, accel, fixed, noOverwrite, asked.value, NameOr(name, "flexible"),
                             FlexibleReady(slot, size, fixed, noOverwrite, asked.value));
    }

    method MapFlexibleIn(slot: U64, size: U64, prot: Prot, accel: int, fixed: bool, noOverwrite: bool, requested: U64,
                         name: string, ghost ready: bool)
      returns (r: Status, ghost at: int)
      requires Inv() && 0 < size && Aligned(size, GUEST_PAGE) && Writable(slot, 8)
      requires ready ==> FlexibleReady(slot, size, fixed, noOverwrite, requested)
      modifies mem, `flexUsed
      ensures Inv()
      ensures r.Done? ==> GotFlexible(old(Seen()), Seen(), mem.Native(), Window(), slot, at, size, prot, fixed,
                                      noOverwrite, requested) && Labelled(at, name, accel)
      ensures r.Fail? ==> Untouched()
                          || LostFlexible(old(Seen()), Seen(), Window(), at, size, fixed, noOverwrite, requested)
      ensures r.Fail? ==> FlexibleCode(old(mem.regions), Window(), slot, requested, size, fixed, noOverwrite, r.code)
      ensures r.Fail? && r.code != ENOMEM && (fixed ==> r.code != EFAULT) ==> Untouched()
      ensures r.Fail? && !fixed ==> flexUsed == old(flexUsed)
      ensures Obliging() && ready ==> r.Done?
    {
      at := 0;
      if flexCapacity == 0 { return Fail(ENOMEM), 0; }
      if fixed {
        at := requested;
        r := MapFlexibleAt(slot, size, prot, accel, noOverwrite, requested, name, ready);
      } else {
        if ready { ReadyOpens(slot, size, noOverwrite, requested); }
        var fit := FitFlexible(size);
        if fit.None? { return Fail(ENOMEM), 0; }
        at := fit.value;
        r := MapFlexibleFree(slot, size, prot, accel, noOverwrite, fit.value, requested, name,
                             ready);
      }
    }

    lemma ReadyOpens(slot: U64, size: U64, noOverwrite: bool, requested: int)
      requires mem.page > 0 && FlexibleReady(slot, size, false, noOverwrite, requested)
      ensures size <= Available() && exists a :: Open(mem.regions, Window(), size, a)
    {
      var a :| FirstOpen(mem.regions, Window(), size, a) && Mappable(mem.regions, a, size);
      assert Open(mem.regions, Window(), size, a);
    }

    /** Without MAP_FIXED, at the first fit. */
    method MapFlexibleFree(slot: U64, size: U64, prot: Prot, accel: int, ghost noOverwrite: bool, at: U64,
                           ghost requested: U64, name: string, ghost fits: bool)
      returns (r: Status)
      requires Inv() && 0 < size && Writable(slot, 8) && (fits ==> Mappable(mem.regions, at, size))
      requires Target(at, size) && FirstOpen(mem.regions, Window(), size, at)
      modifies mem, `flexUsed
      ensures Inv()
      ensures r.Done? ==> GotFlexible(old(Seen()), Seen(), mem.Native(), Window(), slot, at, size, prot, false,
                                      noOverwrite, requested) && Labelled(at, name, accel)
      ensures r.Fail? ==> r.code == ENOMEM && flexUsed == old(flexUsed)
                          && LostFlexible(old(Seen()), Seen(), Window(), at, size, false, noOverwrite, requested)
      ensures mem.Answers() && fits ==> r.Done?
    {
      r := BookFlexible(slot, Info(at, size, READ_WRITE, name, 0, 0, Flexible, true, accel), prot, fits);
      if r.Fail? { FreeIsUnmapped(old(mem.regions), old(mem.bytes), mem.bytes, at, at + size); }
    }

    /** MAP_FIXED: what was there goes first, and does not come back if the rest fails. */
    method MapFlexibleAt(slot: U64, size: U64, prot: Prot, accel: int, noOverwrite: bool, at: U64, name: string,
                         ghost ready: bool)
      returns (r: Status)
      requires Inv() && 0 < size && Aligned(size, GUEST_PAGE) && 0 < flexCapacity
      requires ready ==> FlexibleReady(slot, size, true, noOverwrite, at)
      modifies mem, `flexUsed
      ensures Inv()
      ensures r.Done? ==> GotFlexible(old(Seen()), Seen(), mem.Native(), Window(), slot, at, size, prot, true,
                                      noOverwrite, at) && Labelled(at, name, accel)
      ensures r.Fail? ==> Untouched() || LostFlexible(old(Seen()), Seen(), Window(), at, size, true, noOverwrite, at)
      ensures r.Fail? ==> FlexibleCode(old(mem.regions), Window(), slot, at, size, true, noOverwrite, r.code)
      ensures r.Fail? && r.code != ENOMEM && r.code != EFAULT ==> Untouched()
      ensures Obliging() && ready ==> r.Done?
    {
      if at < FlexBase(Window()) || at + size > FlexEnd(Window()) || !Aligned(at, GUEST_PAGE) { return Fail(EINVAL); }
      if mem.Native() && Obliging() { GuestPagesRequestable(mem.arena.value, mem.page, at, size); }
      AlignedSum(at, size, GUEST_PAGE);
      r := ReplaceFlexible(at, at + size, noOverwrite, ready);
      if r.Fail? { return; }
      if SlotClear(old(mem.regions), slot, at, at + size) {
        SlotStays(old(mem.regions), mem.regions, slot, at, at + size);
      }
      r := MapFlexibleOver(slot, size, prot, accel, noOverwrite, at, name, Obliging(), old(Seen()));
    }

    /** The rest of a fixed mapping, once the target has been taken out of `x`. */
    method MapFlexibleOver(slot: U64, size: U64, prot: Prot, accel: int, ghost noOverwrite: bool, at: U64, name: string,
                           ghost fits: bool, ghost x: Picture)
      returns (r: Status)
      requires Inv() && 0 < size && Target(at, size) && (fits ==> Mappable(mem.regions, at, size))
      requires Removed(x.regions, mem.regions, at, at + size) && mem.bytes == x.bytes
      requires OnlyKinds(x.regions, at, at + size, {Flexible, Reserved})
      requires noOverwrite ==> Free(x.regions, at, at + size)
      modifies mem, `flexUsed
      ensures Inv()
      ensures r.Done? ==> GotFlexible(x, Seen(), mem.Native(), Window(), slot, at, size, prot, true, noOverwrite, at)
                          && Labelled(at, name, accel)
      ensures r.Fail? ==> (r.code == ENOMEM || (r.code == EFAULT && !old(Writable(slot, 8))))
                          && LostFlexible(x, Seen(), Window(), at, size, true, noOverwrite, at)
      ensures mem.Answers() && fits && old(Writable(slot, 8)) ==> r.Done?
    {
      ghost var mid := Seen();
      r := BookFlexible(slot, Info(at, size, READ_WRITE, name, 0, 0, Flexible, true, accel), prot, fits);
      if r.Fail? {
        RemovedIsUnmapped(x.regions, mem.regions, mem.Native(), x.bytes, mem.bytes, at, at + size);
      } else {
        ReplacedFrame(x, mid, Seen(), at, at + size, slot, slot + 8);
      }
    }
  }

  /** `y` holds clear flexible memory of this size and protection at `at`. */
  ghost predicate MappedFlexible(y: Picture, native: bool, slot: int, at: int, size: nat, prot: Prot) {
    && 0 <= at <= U64_MAX && Stored(y.regions, native, y.bytes, slot, ToLe(at, 8))
    && StoredBut(y.regions, native, y.bytes, at, Padded([], size), slot, slot + 8)
    && at in y.regions
    && var i := y.regions[at].info; i.size == size && i.kind == Flexible && i.prot == prot
  }

  /** What success leaves of `x`: clear memory in free space, or with MAP_FIXED at the address `requested`. */
  ghost predicate GotFlexible(x: Picture, y: Picture, native: bool, l: Layout, slot: int, at: int, size: U64,
                              prot: Prot, fixed: bool, noOverwrite: bool, requested: int)
  {
    && MappedFlexible(y, native, slot, at, size, prot)
    && Outside(x.regions, y.regions, at, at + size) && Frame(x, y, at, at + size, slot, slot + 8)
    && OnlyKinds(x.regions, at, at + size, {Flexible, Reserved})
    && (!fixed || noOverwrite ==> Free(x.regions, at, at + size))
    && if fixed then at == requested else FirstOpen(x.regions, l, size, at)
  }

  /** Why flexible memory is refused: no room or budget, or with MAP_FIXED an address outside the window or between
      guest pages, something else in the way, or a slot that goes with what is replaced. */
  ghost predicate FlexibleCode(rs: Table, l: Layout, slot: int, requested: int, size: int, fixed: bool,
                               noOverwrite: bool, code: int)
  {
    if FlexBase(l) == FlexEnd(l) || !fixed then code == ENOMEM
    else if requested < FlexBase(l) || requested + size > FlexEnd(l) || !Aligned(requested, GUEST_PAGE)
    then code == EINVAL
    else if !noOverwrite && !OnlyKinds(rs, requested, requested + size, {Flexible, Reserved}) then code == ENOTSUP
    else code == ENOMEM || (code == EFAULT && !SlotClear(rs, slot, requested, requested + size))
  }

  /** What failure at a target leaves of `x`: the first fit still free, or with MAP_FIXED the target taken out. No byte
      of a mapped address has changed. */
  ghost predicate LostFlexible(x: Picture, y: Picture, l: Layout, at: int, size: U64, fixed: bool, noOverwrite: bool,
                               requested: int)
  {
    && BytesKept(x.bytes, y.bytes, at, at + size, 0, 0) && KeptWhereMapped(y.regions, x.bytes, y.bytes)
    && OnlyKinds(x.regions, at, at + size, {Flexible, Reserved})
    && (!fixed || noOverwrite ==> Free(x.regions, at, at + size))
    && if fixed then at == requested && Removed(x.regions, y.regions, at, at + size)
       else FirstOpen(x.regions, l, size, at) && y.regions == x.regions
  }

  predicate FlexibleArguments(size: U64, g: GuestProt, flagsUnknown: bool) {
    0 < size && Aligned(size, GUEST_PAGE) && !flagsUnknown && !g.exec && CpuProtection(g).Some?
  }

  lemma ReplacedFrame(x: Picture, y: Picture, z: Picture, lo: int, hi: int, slo: int, shi: int)
    requires Removed(x.regions, y.regions, lo, hi) && y.bytes == x.bytes
    requires Outside(y.regions, z.regions, lo, hi) && Frame(y, z, lo, hi, slo, shi)
    ensures Outside(x.regions, z.regions, lo, hi) && Frame(x, z, lo, hi, slo, shi)
  {
    OutsideRemoved(x.regions, y.regions, lo, hi);
    OutsideTwice(x.regions, y.regions, z.regions, lo, hi);
    FrameRemoved(x, y, lo, hi, slo, shi);
    FrameTwice(x, y, z, lo, hi, slo, shi);
  }

  lemma MetAddress(rs: Table, native: bool, k: int, lo: int, hi: int) returns (a: int)
    requires Valid(rs, native) && k in rs && Meets(rs[k], lo, hi) && lo < hi
    ensures lo <= a < hi && Mapped(rs, a)
  {
    a := if k < lo then lo else k;
    assert Covers(rs[k], a);
  }

  lemma UnmappedIsFree(rs: Table, native: bool, lo: int, hi: int)
    requires Valid(rs, native) && lo < hi && forall a :: lo <= a < hi ==> !Mapped(rs, a)
    ensures Free(rs, lo, hi)
  {
    forall k | k in rs ensures !Meets(rs[k], lo, hi) {
      if Meets(rs[k], lo, hi) { var a := MetAddress(rs, native, k, lo, hi); }
    }
  }

  /** Guest pages are whole host pages, if these divide them. */
  lemma GuestPages(n: Arena, page: U64, lo: int, hi: int)
    requires page > 0 && Aligned(GUEST_PAGE, page) && Aligned(lo, GUEST_PAGE) && Aligned(hi, GUEST_PAGE)
    requires n.base <= lo <= hi
    ensures OnPages(n, page, lo, hi)
  {
    AlignedCoarse(lo, GUEST_PAGE, page);
    AlignedCoarse(hi, GUEST_PAGE, page);
    AlignedRest(lo, hi, page);
  }

  lemma GuestPagesRequestable(n: Arena, page: U64, lo: int, size: int)
    requires page > 0 && GoodArena(n, page) && Aligned(GUEST_PAGE, page) && Aligned(lo, GUEST_PAGE)
    requires Aligned(size, GUEST_PAGE) && 0 < size && n.base <= lo && lo + size <= ArenaEnd(n)
    ensures Requestable(n, page, lo, size)
  {
    AlignedSum(lo, size, GUEST_PAGE);
    GuestPages(n, page, lo, lo + size);
    OnPagesRequestable(n, page, lo, lo + size);
  }

  datatype Name = Default | Unreadable | Given(text: string)

  predicate GoodName(name: Name) { !name.Unreadable? && (name.Given? ==> |name.text| < 32) }

  /** The code for a name that is not good. */
  function NameCode(name: Name): int { if name.Unreadable? then EFAULT else ENAMETOOLONG }

  function NameOr(name: Name, otherwise: string): string { if name.Given? then name.text else otherwise }

  /** What a mapping of direct memory may displace: nothing, or other direct memory. */
  ghost predicate Displaces(rs: Table, lo: int, hi: int, noOverwrite: bool) {
    OnlyKinds(rs, lo, hi, {Direct}) && (noOverwrite ==> Free(rs, lo, hi))
  }

  /** Why direct memory that may be mapped in [lo, hi) is not: something else is there, or something at all that must
      not be overwritten; or the slot goes with it; a host that refuses nothing is no reason. */
  ghost predicate DirectCode(rs: Table, slot: int, lo: int, hi: int, noOverwrite: bool, obliging: bool, code: int) {
    if !noOverwrite && !OnlyKinds(rs, lo, hi, {Direct}) then code == ENOTSUP
    else (code == EFAULT && !SlotClear(rs, slot, lo, hi))
         || (code == ENOMEM && (obliging ==> noOverwrite && !Free(rs, lo, hi)))
  }

  /** Every region that meets the range is of one of these kinds. */
  ghost predicate OnlyKinds(rs: Table, lo: int, hi: int, kinds: set<Kind>) {
    forall k :: k in rs && Meets(rs[k], lo, hi) ==> rs[k].info.kind in kinds
  }

  /** The word at `slot` is writable, in a region that does not meet [lo, hi). */
  ghost predicate SlotClear(rs: Table, slot: int, lo: int, hi: int) {
    exists k :: k in rs && Covers(rs[k], slot) && rs[k].info.prot.write && slot + 8 <= End(rs[k])
                && !Meets(rs[k], lo, hi)
  }

  lemma SlotStays(rs: Table, rs': Table, slot: int, lo: int, hi: int)
    requires SlotClear(rs, slot, lo, hi) && Spares(rs, rs', lo, hi)
    ensures SlotClear(rs', slot, lo, hi)
  {
    var k :| k in rs && Covers(rs[k], slot) && rs[k].info.prot.write && slot + 8 <= End(rs[k]) && !Meets(rs[k], lo, hi);
    assert Kept(rs, rs', k);
  }

  /** What the listing says of a range is what the table says. */
  lemma OverlapsAre(rs: Table, s: seq<Info>, lo: int, hi: int, kinds: set<Kind>)
    requires Listing(rs, s) && forall k :: k in rs ==> rs[k].info.base == k && k < TWO64
    ensures (exists i :: 0 <= i < |s| && Overlaps(s[i], lo, hi)) <==> !Free(rs, lo, hi)
    ensures (forall i :: 0 <= i < |s| && Overlaps(s[i], lo, hi) ==> s[i].kind in kinds)
            <==> OnlyKinds(rs, lo, hi, kinds)
  {
    if forall i :: 0 <= i < |s| ==> !Overlaps(s[i], lo, hi) { NoOverlapIsFree(rs, s, lo, hi); }
  }

  lemma FreeRemoved(rs: Table, lo: int, hi: int)
    requires Free(rs, lo, hi)
    ensures Removed(rs, rs, lo, hi) && Spares(rs, rs, lo, hi)
  {
    forall a, c | Has(rs, a, c) ensures !(lo <= a < hi) {
      var k :| k in rs && CellAt(rs[k], a, c);
      assert !Meets(rs[k], lo, hi);
    }
  }

  lemma FreeOnPages(rs: Table, lo: int, hi: int, n: Arena, page: U64)
    requires page > 0 && Free(rs, lo, hi)
    ensures MetOnPages(rs, lo, hi, n, page)
  {
  }

  lemma RemovedFree(rs: Table, rs': Table, native: bool, lo: int, hi: int)
    requires Valid(rs', native) && lo < hi && Removed(rs, rs', lo, hi)
    ensures Free(rs', lo, hi)
  {
    forall a | lo <= a < hi ensures !Mapped(rs', a) {
      forall k | k in rs' ensures !Covers(rs'[k], a) {
        if Covers(rs'[k], a) { HasCell(rs', native, k, a); }
      }
    }
    UnmappedIsFree(rs', native, lo, hi);
  }

  lemma HasCell(rs: Table, native: bool, k: int, a: int)
    requires Valid(rs, native) && k in rs && Covers(rs[k], a)
    ensures Has(rs, a, CellOf(rs[k], a))
  {
    assert CellAt(rs[k], a, CellOf(rs[k], a));
  }

  lemma SparesMore(x: Table, y: Table, z: Table, k: int, lo: int, hi: int)
    requires Spares(x, y, lo, hi) && OneMore(y, z, k)
    ensures Spares(x, z, lo, hi)
  {
    forall j | j in x && !Meets(x[j], lo, hi) ensures Kept(x, z, j) { assert Kept(x, y, j); }
  }

  lemma FrameThenRemoved(x: Picture, y: Picture, rs: Table, lo: int, hi: int)
    requires Frame(x, y, lo, hi, 0, 0) && Removed(y.regions, rs, lo, hi)
    ensures Removed(x.regions, rs, lo, hi)
  {
    forall a, c ensures Has(rs, a, c) <==> Has(x.regions, a, c) && !(lo <= a < hi) {
      if !(lo <= a < hi) { assert Off(a, lo, hi, 0, 0); }
    }
  }

  lemma BooksAfterDirect(rs: Table, rs': Table, r: Region, l: Layout, al: seq<Alloc>, used: int)
    requires Books(rs, l, al, used) && Added(rs, rs', r) && Free(rs, r.info.base, End(r)) && 0 < r.info.size
             && End(r) <= U64_MAX
    requires r.info.kind == Direct && l.base <= r.info.base && r.info.offset == r.info.base - l.base && WholeRegion(r)
    requires AllOfType(al, r.info.offset, r.info.offset + r.info.size, r.info.memoryType)
    ensures Books(rs', l, al, used)
  {
    DirectCanonical(r, l, al);
    BooksAfterAdd(rs, rs', r, l, al, used);
  }

  lemma DirectCanonical(r: Region, l: Layout, al: seq<Alloc>)
    requires r.info.kind == Direct && l.base <= r.info.base && r.info.offset == r.info.base - l.base
             && End(r) <= U64_MAX
    requires AllOfType(al, r.info.offset, r.info.offset + r.info.size, r.info.memoryType)
    ensures forall a :: Covers(r, a) ==> Canonical(l, al, a, CellOf(r, a))
  {
    forall a | Covers(r, a) ensures Canonical(l, al, a, CellOf(r, a)) {
      assert AllocAt(al, a - l.base, r.info.memoryType);
    }
  }

  /** `y` holds direct memory at its canonical address, with the memory type of its allocations. */
  ghost predicate MappedDirect(y: Picture, native: bool, l: Layout, al: seq<Alloc>, slot: int, size: int, physical: int,
                               prot: Prot)
  {
    var lo := l.base + physical;
    && 0 <= physical && lo <= U64_MAX && Stored(y.regions, native, y.bytes, slot, ToLe(lo, 8))
    && physical + size <= DirectCap(l) && lo in y.regions
    && var i := y.regions[lo].info;
       i.size == size && i.prot == prot && i.kind == Direct && i.offset == physical
       && AllOfType(al, physical, physical + size, i.memoryType)
  }

  /** What a direct mapping leaves of `x`. */
  ghost predicate GotDirect(x: Picture, y: Picture, native: bool, l: Layout, al: seq<Alloc>, slot: int, size: U64,
                            physical: int, prot: Prot, noOverwrite: bool)
  {
    var lo := l.base + physical;
    && 0 < size && MappedDirect(y, native, l, al, slot, size, physical, prot)
    && Outside(x.regions, y.regions, lo, lo + size)
    && Frame(x, y, lo, lo + size, slot, slot + 8) && BytesKept(x.bytes, y.bytes, 0, 0, slot, slot + 8)
    && Displaces(x.regions, lo, lo + size, noOverwrite)
  }

  /** What a failed mapping at `at` leaves: every region, or every region but what it was to replace, which is of these
      kinds only. */
  ghost predicate Lost(rs: Table, rs': Table, at: int, size: int, noOverwrite: bool, kinds: set<Kind>) {
    rs' == rs || (Removed(rs, rs', at, at + size) && OnlyKinds(rs, at, at + size, kinds)
                  && (noOverwrite ==> Free(rs, at, at + size)))
  }

  /** The checks that map_direct_memory makes on its own arguments. */
  predicate DirectArguments(size: U64, g: GuestProt, flagsUnknown: bool, physical: int, alignment: U64) {
    && 0 <= physical <= U64_MAX && 0 < size && Aligned(size, GUEST_PAGE) && GoodAlignment(alignment)
    && !flagsUnknown && !g.exec && CpuProtection(g).Some?
  }

  /** `after` allocates what `before` does outside [lo, hi), with the same memory types. */
  ghost predicate ReleasedAllocs(before: seq<Alloc>, after: seq<Alloc>, lo: int, hi: int) {
    forall p, t :: AllocAt(after, p, t) <==> AllocAt(before, p, t) && !(lo <= p < hi)
  }

  /** `after` lacks exactly the canonical addresses of the allocated part of [lo, hi). */
  ghost predicate Unmapped(before: Table, after: Table, al: seq<Alloc>, base: int, lo: int, hi: int) {
    forall a, c :: Has(after, a, c) <==> Has(before, a, c) && !(lo <= a - base < hi && Allocated(al, a - base))
  }

  lemma TrimReleases(al: seq<Alloc>, lo: U64, hi: U64)
    requires lo < hi
    ensures ReleasedAllocs(al, Trim(al, lo, hi), lo, hi)
  {
    forall p, t ensures AllocAt(Trim(al, lo, hi), p, t) <==> AllocAt(al, p, t) && !(lo <= p < hi) {
      TrimHas(al, lo, hi, p, t);
    }
  }

  lemma NothingReleased(al: seq<Alloc>, segs: seq<Range>, lo: int, hi: int)
    requires segs == [] && forall a :: InSegs(segs, a) <==> Allocated(al, a) && lo <= a < hi
    ensures ReleasedAllocs(al, al, lo, hi) && forall p :: lo <= p < hi ==> !Allocated(al, p)
  {
    forall p, t | AllocAt(al, p, t) ensures !(lo <= p < hi) {
      assert Allocated(al, p) && !InSegs(segs, p);
    }
    forall p | lo <= p < hi ensures !Allocated(al, p) { assert !InSegs(segs, p); }
  }

  /** The first `n` segments are the released addresses below a point. */
  lemma SomeReleased(rs: Table, rs': Table, segs: seq<Range>, n: nat, al: seq<Alloc>, base: int, lo: int, hi: int)
    requires ValidSegs(segs, hi) && n <= |segs| && lo <= hi && DroppedSegs(rs, rs', segs[..n], base)
    requires forall a :: InSegs(segs, a) <==> Allocated(al, a) && lo <= a < hi
    ensures exists top :: lo <= top <= hi && Unmapped(rs, rs', al, base, lo, top)
  {
    var top := if n == 0 then lo else segs[n - 1].hi;
    if n > 0 { assert InSegs(segs, segs[n - 1].lo); }
    forall p ensures InSegs(segs[..n], p) <==> Allocated(al, p) && lo <= p < top {
      assert InSegs(segs, p) <==> Allocated(al, p) && lo <= p < hi;
      if InSegs(segs[..n], p) {
        var i :| 0 <= i < n && segs[..n][i].lo <= p < segs[..n][i].hi;
        assert segs[i].lo <= p < segs[i].hi && segs[i].hi <= top;
      }
      if Allocated(al, p) && lo <= p < top {
        var i :| 0 <= i < |segs| && segs[i].lo <= p < segs[i].hi;
        assert i < n;
        assert segs[..n][i] == segs[i];
      }
    }
    forall a, c ensures Has(rs', a, c) <==> Has(rs, a, c) && !(lo <= a - base < top && Allocated(al, a - base)) {
      assert InSegs(segs[..n], a - base) <==> Allocated(al, a - base) && lo <= a - base < top;
    }
    assert Unmapped(rs, rs', al, base, lo, top);
  }

  lemma SegsAreReleased(rs: Table, rs': Table, segs: seq<Range>, al: seq<Alloc>, base: int, lo: int, hi: int)
    requires DroppedSegs(rs, rs', segs, base) && forall a :: InSegs(segs, a) <==> Allocated(al, a) && lo <= a < hi
    ensures Unmapped(rs, rs', al, base, lo, hi)
    ensures forall a, c :: Has(rs', a, c) ==> !(lo <= a - base < hi && Allocated(al, a - base))
  {
    forall a, c ensures Has(rs', a, c) <==> Has(rs, a, c) && !(lo <= a - base < hi && Allocated(al, a - base)) {
      assert InSegs(segs, a - base) <==> Allocated(al, a - base) && lo <= a - base < hi;
    }
  }

  /** Once its canonical addresses are unmapped, a range can leave the allocated set. */
  lemma BooksAfterTrim(rs: Table, l: Layout, al: seq<Alloc>, used: int, lo: U64, hi: U64)
    requires Books(rs, l, al, used) && lo < hi && Aligned(lo, GUEST_PAGE) && Aligned(hi, GUEST_PAGE)
    requires forall a, c :: Has(rs, a, c) ==> !(lo <= a - l.base < hi && Allocated(al, a - l.base))
    ensures Books(rs, l, Trim(al, lo, hi), used)
  {
    TrimValid(al, lo, hi, DirectCap(l));
    forall a, c | Has(rs, a, c) && c.kind == Direct ensures Canonical(l, Trim(al, lo, hi), a, c) {
      TrimHas(al, lo, hi, a - l.base, c.memoryType);
      assert Allocated(al, a - l.base);
    }
  }

  /** `after` is `before` without the canonical addresses of the segments. */
  ghost predicate DroppedSegs(before: Table, after: Table, segs: seq<Range>, base: int) {
    forall a, c :: Has(after, a, c) <==> Has(before, a, c) && !InSegs(segs, a - base)
  }

  lemma DroppedMore(x: Table, y: Table, z: Table, segs: seq<Range>, i: nat, base: int)
    requires i < |segs| && DroppedSegs(x, y, segs[..i], base) && Removed(y, z, base + segs[i].lo, base + segs[i].hi)
    ensures DroppedSegs(x, z, segs[..i + 1], base)
  {
    forall a, c ensures Has(z, a, c) <==> Has(x, a, c) && !InSegs(segs[..i + 1], a - base) {
      SegsMore(segs, i, a - base);
      assert Has(y, a, c) <==> Has(x, a, c) && !InSegs(segs[..i], a - base);
    }
  }

  lemma SegsMore(segs: seq<Range>, i: nat, p: int)
    requires i < |segs|
    ensures InSegs(segs[..i + 1], p) <==> InSegs(segs[..i], p) || segs[i].lo <= p < segs[i].hi
  {
    if InSegs(segs[..i], p) {
      var j :| 0 <= j < i && segs[..i][j].lo <= p < segs[..i][j].hi;
      assert segs[..i + 1][j] == segs[j];
    }
    if segs[i].lo <= p < segs[i].hi { assert segs[..i + 1][i] == segs[i]; }
    if InSegs(segs[..i + 1], p) && !(segs[i].lo <= p < segs[i].hi) {
      var j :| 0 <= j < i + 1 && segs[..i + 1][j].lo <= p < segs[..i + 1][j].hi;
      assert segs[..i][j] == segs[j];
    }
  }

  /** A new allocation of free addresses keeps the books. */
  lemma BooksAfterInsert(rs: Table, l: Layout, al: seq<Alloc>, used: int, x: Alloc, unit: int)
    requires Books(rs, l, al, used) && unit > 0 && Aligned(unit, GUEST_PAGE) && Aligned(x.base, unit)
             && Aligned(x.size, GUEST_PAGE)
    requires 0 < x.size && AllocEnd(x) <= DirectCap(l)
             && forall p :: x.base <= p < AllocEnd(x) ==> !Taken(al, rs, l.base, p)
    ensures Books(rs, l, Insert(al, x), used)
  {
    AlignedCoarse(x.base, unit, GUEST_PAGE);
    forall i | 0 <= i < |al| ensures AllocEnd(x) <= al[i].base || AllocEnd(al[i]) <= x.base {
      assert FitAlloc(al[i], DirectCap(l));
      var p := if x.base < al[i].base then al[i].base else x.base;
      assert Holds(al[i], p) ==> Allocated(al, p) && Taken(al, rs, l.base, p);
    }
    InsertValid(al, x, DirectCap(l));
    forall a, c | Has(rs, a, c) && c.kind == Direct ensures Canonical(l, Insert(al, x), a, c) {
      InsertHas(al, x, a - l.base, c.memoryType);
    }
  }

  /** Non-empty ranges that cover exactly the taken addresses below the capacity. */
  ghost predicate Blocks(b: seq<Range>, al: seq<Alloc>, rs: Table, base: int, cap: int) {
    Nonempty(b, cap) && forall a :: 0 <= a < cap ==> (InRanges(b, a) <==> Taken(al, rs, base, a))
  }

  /** An aligned place of the window whose addresses are neither allocated nor mapped at their canonical place. */
  ghost predicate FreeSpot(al: seq<Alloc>, rs: Table, base: int, start: int, end: int, alignment: int, size: int,
                           a: int)
    requires alignment > 0
  {
    0 <= start <= a && a + size <= end && Aligned(a, alignment)
    && forall p :: a <= p < a + size ==> !Taken(al, rs, base, p)
  }

  ghost predicate NoFreeSpot(al: seq<Alloc>, rs: Table, base: int, start: int, end: int, alignment: int, size: int)
    requires alignment > 0
  {
    forall a :: !FreeSpot(al, rs, base, start, end, alignment, size, a)
  }

  predicate GoodAlignment(alignment: U64) {
    alignment == 0 || (GUEST_PAGE <= alignment && Aligned(alignment, GUEST_PAGE))
  }

  lemma UnitAligned(alignment: U64)
    requires GoodAlignment(alignment)
    ensures Aligned(Unit(alignment), GUEST_PAGE)
  {
    AlignedMod(GUEST_PAGE, GUEST_PAGE);
  }

  /** An alignment of zero means one guest page. */
  function Unit(alignment: U64): (u: U64)
    ensures u > 0 && (alignment == 0 ==> u == GUEST_PAGE) && (alignment > 0 ==> u == alignment)
  {
    if alignment == 0 then GUEST_PAGE else alignment
  }

  ghost predicate LeastFree(al: seq<Alloc>, rs: Table, base: int, start: int, end: int, alignment: int, size: int,
                            at: int)
    requires alignment > 0
  {
    && FreeSpot(al, rs, base, start, end, alignment, size, at)
    && forall a :: FreeSpot(al, rs, base, start, end, alignment, size, a) ==> at <= a
  }

  lemma SpotIsFree(b: seq<Range>, al: seq<Alloc>, rs: Table, base: int, cap: int, start: int, end: int, alignment: int,
                   size: int, a: int)
    requires alignment > 0 && size > 0 && end <= cap && Blocks(b, al, rs, base, cap)
    ensures Spot(b, start, end, alignment, size, a) <==> FreeSpot(al, rs, base, start, end, alignment, size, a)
  {
    ClearIff(b, a, size);
    if 0 <= a && a + size <= cap {
      assert forall p :: a <= p < a + size ==> (InRanges(b, p) <==> Taken(al, rs, base, p));
    }
  }

  datatype MapFlags = MapFlags(fixed: bool, noOverwrite: bool, anonymous: bool, stack: bool, reserved: bool,
                               system: bool, shared: bool, isPrivate: bool, unknown: bool)

  datatype MapResult = At(at: U64) | Refused(code: int)

  /** The bytes read from a file descriptor, or why they could not be read. */
  datatype Snapshot = Bytes(data: seq<Byte>) | NoFile(code: int)

  function KindOf(f: MapFlags): Kind {
    if f.anonymous then Anonymous else if f.stack then Stack else if f.reserved then Reserved else FileBacked
  }

  datatype Request = Bad(code: int) | Good(hint: U64, n: U64, prot: Prot)

  /** The checks that mmap makes before it looks at the address space. */
  function Screen(address: U64, size: U64, g: GuestProt, f: MapFlags, offset: int, file: Snapshot): (q: Request)
    requires file.Bytes? ==> |file.data| == size
    ensures q.Good? ==> 0 < size <= q.n && q.n == Ceil(size, GUEST_PAGE) && (f.fixed ==> q.hint == address)
    ensures q.Good? && KindOf(f) == FileBacked ==> 0 <= offset <= U64_MAX && file.Bytes?
  {
    var prot, n := CpuProtection(g), CheckedAlignUp(size, GUEST_PAGE);
    var hint := if address == 0 then Some(0) else CheckedAlignUp(address, GUEST_PAGE);
    if size == 0 || f.unknown || prot.None? then Bad(EINVAL)
    else if g.accel != 0 then Bad(ENOTSUP)
    else if n.None? || hint.None? || (f.fixed && hint.value != address) then Bad(EINVAL)
    else
      CeilBounds(size, GUEST_PAGE);
      if f.anonymous && f.system then Bad(ENOTSUP)
      else if KindOf(f) != FileBacked then Good(hint.value, n.value, prot.value)
      else if f.shared || !f.isPrivate then Bad(ENOTSUP)
      else if offset < 0 || offset > U64_MAX || !Aligned(offset, GUEST_PAGE) then Bad(EINVAL)
      else if file.NoFile? then Bad(file.code)
      else Good(hint.value, n.value, prot.value)
  }

  /** `n` is `x` rounded up to guest pages. */
  predicate RoundsUp(x: U64, n: int) { n % GUEST_PAGE == 0 && x <= n < x + GUEST_PAGE }

  /** What mmap asks of its arguments. */
  predicate Mmappable(address: U64, size: U64, g: GuestProt, f: MapFlags, offset: int, file: Snapshot) {
    && 0 < size && size + (GUEST_PAGE - 1) <= U64_MAX && !f.unknown && !g.unknown && g.accel == 0
    && (address == 0 || address + (GUEST_PAGE - 1) <= U64_MAX) && (f.fixed ==> address % GUEST_PAGE == 0)
    && !(f.anonymous && f.system)
    && (f.anonymous || f.stack || f.reserved
        || (!f.shared && f.isPrivate && 0 <= offset <= U64_MAX && offset % GUEST_PAGE == 0 && file.Bytes?))
  }

  lemma RoundedUp(x: U64)
    ensures x == 0 || x + (GUEST_PAGE - 1) <= U64_MAX ==>
              Ceil(x, GUEST_PAGE) <= U64_MAX && RoundsUp(x, Ceil(x, GUEST_PAGE))
    ensures Ceil(x, GUEST_PAGE) == x <==> x % GUEST_PAGE == 0
  {
    CeilMod(x, GUEST_PAGE);
    CeilBounds(x, GUEST_PAGE);
  }

  /** mmap's checks pass exactly such arguments, rounded up to guest pages; the others are invalid, or not supported, or
      name a file that cannot be read. */
  lemma ScreensExactly(address: U64, size: U64, g: GuestProt, f: MapFlags, offset: int, file: Snapshot)
    requires file.Bytes? ==> |file.data| == size
    ensures var q := Screen(address, size, g, f, offset, file);
            && (q.Good? <==> Mmappable(address, size, g, f, offset, file))
            && (q.Good? ==> RoundsUp(address, q.hint) && RoundsUp(size, q.n)
                            && q.prot.read == (g.read || g.write) && q.prot.write == g.write && q.prot.exec == g.exec)
            && (q.Bad? ==> q.code == EINVAL || q.code == ENOTSUP || (file.NoFile? && q.code == file.code))
            && (q == Bad(ENOTSUP) && file != NoFile(ENOTSUP) ==>
                  g.accel != 0 || (f.anonymous && f.system)
                  || (!f.anonymous && !f.stack && !f.reserved && (f.shared || !f.isPrivate)))
            && (q == Bad(EINVAL) && file != NoFile(EINVAL) ==>
                  size == 0 || f.unknown || g.unknown || size + (GUEST_PAGE - 1) > U64_MAX
                  || address + (GUEST_PAGE - 1) > U64_MAX || (f.fixed && address % GUEST_PAGE != 0)
                  || offset < 0 || offset > U64_MAX || offset % GUEST_PAGE != 0)
  {
    RoundedUp(address);
    RoundedUp(size);
    if 0 <= offset { AlignedMod(offset, GUEST_PAGE); }
  }

  /** The region that a mapping ends up as. A file mapping is never writable; a reservation has no rights. */
  function InfoFor(f: MapFlags, at: U64, n: U64, prot: Prot, offset: int, g: GuestProt): Info
    requires KindOf(f) == FileBacked ==> 0 <= offset <= U64_MAX
  {
    var kind := KindOf(f);
    Info(at, n,
         match kind
         case Reserved => NO_ACCESS
         case FileBacked => Prot(g.read || g.write, false, false)
         case _ => prot,
         match kind
         case Reserved => "mmap-reserved"
         case Stack => "mmap-stack"
         case FileBacked => "mmap-file"
         case _ => "mmap-anon",
         if kind == FileBacked then offset else 0, 0, kind, kind != Reserved, 0)
  }

  /** The bytes that a mapping starts with; the rest is zero. */
  function DataOf(f: MapFlags, file: Snapshot): seq<Byte> {
    if KindOf(f) == FileBacked && file.Bytes? then file.data else []
  }

  /** What a mapping is like, by its flags: the first of anonymous, stack and reserved that is set decides, and a file
      is mapped where none is. */
  predicate AsAsked(i: Info, data: seq<Byte>, f: MapFlags, g: GuestProt, offset: int, file: Snapshot) {
    if !f.anonymous && !f.stack && f.reserved then
      i.kind == Reserved && !i.committed && !i.prot.read && !i.prot.write && !i.prot.exec && i.offset == 0 && data == []
    else if !f.anonymous && !f.stack then
      && i.kind == FileBacked && i.committed && file == Bytes(data) && i.offset == offset
      && i.prot.read == (g.read || g.write) && !i.prot.write && !i.prot.exec
    else
      && i.kind == (if f.anonymous then Anonymous else Stack) && i.committed && data == [] && i.offset == 0
      && i.prot.read == (g.read || g.write) && i.prot.write == g.write && i.prot.exec == g.exec
  }

  /** That is how mmap maps. */
  lemma MapsAsAsked(at: U64, address: U64, size: U64, g: GuestProt, f: MapFlags, offset: int, file: Snapshot)
    requires file.Bytes? ==> |file.data| == size
    ensures var q := Screen(address, size, g, f, offset, file);
            q.Good? ==> && AsAsked(InfoFor(f, at, q.n, q.prot, offset, g), DataOf(f, file), f, g, offset, file)
                        && InfoFor(f, at, q.n, q.prot, offset, g).base == at
                        && InfoFor(f, at, q.n, q.prot, offset, g).size == q.n
  {
    ScreensExactly(address, size, g, f, offset, file);
  }

  /** The range lies in one region. */
  ghost predicate InOne(rs: Table, lo: int, hi: int) { exists k :: k in rs && k <= lo && hi <= End(rs[k]) }

  /** No direct or flexible memory is mapped in the range. */
  ghost predicate NoManaged(rs: Table, lo: int, hi: int) {
    forall a, c :: lo <= a < hi && Has(rs, a, c) ==> c.kind != Direct && c.kind != Flexible
  }

  lemma FreeNoManaged(rs: Table, lo: int, hi: int)
    requires Free(rs, lo, hi)
    ensures NoManaged(rs, lo, hi)
  {
    forall a, c, k | lo <= a < hi && k in rs ensures !CellAt(rs[k], a, c) { assert !Meets(rs[k], lo, hi); }
  }

  lemma PlainNoManaged(rs: Table, s: seq<Info>, native: bool, lo: int, hi: int)
    requires Valid(rs, native) && Listing(rs, s)
    requires forall i :: 0 <= i < |s| && Overlaps(s[i], lo, hi) ==> s[i].kind != Direct && s[i].kind != Flexible
    ensures NoManaged(rs, lo, hi)
  {
    forall a, c | lo <= a < hi && Has(rs, a, c) ensures c.kind != Direct && c.kind != Flexible {
      var k: int :| k in rs && CellAt(rs[k], a, c);
      var i :| 0 <= i < |s| && s[i].base == k;
      assert Overlaps(s[i], lo, hi);
    }
  }

  /** `n` bytes at `a` would be on guest pages, inside the arena and meet no region. */
  ghost predicate Vacant(rs: Table, arena: Option<Arena>, n: int, a: int) {
    a >= 0 && Aligned(a, GUEST_PAGE) && InsideArena(arena, a, n) && Free(rs, a, a + n)
  }

  /** The least free place for `n` bytes from the start point of the search on. */
  ghost predicate LeastOpen(rs: Table, arena: Option<Arena>, hint: U64, n: int, at: int) {
    && Origin(arena, hint) <= at && Vacant(rs, arena, n, at)
    && forall a :: Origin(arena, hint) <= a < at ==> !Vacant(rs, arena, n, a)
  }

  /** There is a free place from the start point of the search on. */
  ghost predicate SomeVacant(rs: Table, arena: Option<Arena>, hint: U64, n: int) {
    exists a :: Origin(arena, hint) <= a && Vacant(rs, arena, n, a)
  }

  /** Where there is a free place, there is a least one. */
  lemma {:induction false} LeastVacant(rs: Table, arena: Option<Arena>, hint: U64, n: int, from: int, a: int)
    returns (at: int)
    requires Origin(arena, hint) <= from <= a && Vacant(rs, arena, n, a)
    requires forall b :: Origin(arena, hint) <= b < from ==> !Vacant(rs, arena, n, b)
    ensures LeastOpen(rs, arena, hint, n, at)
    decreases a - from
  {
    if Vacant(rs, arena, n, from) { at := from; } else { at := LeastVacant(rs, arena, hint, n, from + 1, a); }
  }

  lemma PlaceIsVacant(rs: Table, s: seq<Info>, native: bool, arena: Option<Arena>, n: int, a: int)
    requires Valid(rs, native) && Listing(rs, s) && n > 0
    ensures Place(s, arena, n, a) <==> Vacant(rs, arena, n, a)
  {
    if MissesAll(s, a, n) { NoOverlapIsFree(rs, s, a, a + n); }
    if Free(rs, a, a + n) {
      forall i | 0 <= i < |s| ensures a + n <= s[i].base || InfoEnd(s[i]) <= a {
        assert !Meets(rs[s[i].base], a, a + n);
      }
    }
  }

  /** The code of a refused fixed mapping: only memory that may not be replaced is not supported. */
  ghost predicate FixedCode(rs: Table, arena: Option<Arena>, at: int, n: int, noOverwrite: bool, code: int) {
    code == if InsideArena(arena, at, n) && !noOverwrite && !OnlyKinds(rs, at, at + n, PLAIN) then ENOTSUP else ENOMEM
  }

  const PLAIN := {Generic, Anonymous, FileBacked, Stack, Reserved}

  /** `a` is a place for `size` bytes in the flexible window that no region meets. */
  ghost predicate Open(rs: Table, l: Layout, size: int, a: int) {
    FlexBase(l) <= a && a + size <= FlexEnd(l) && Free(rs, a, a + size)
  }

  ghost predicate FirstOpen(rs: Table, l: Layout, size: int, at: int) {
    Open(rs, l, size, at) && forall a :: Open(rs, l, size, a) ==> at <= a
  }

  lemma PlaceIsOpen(rs: Table, s: seq<Info>, native: bool, l: Layout, size: int, a: int)
    requires Valid(rs, native) && Listing(rs, s) && size > 0
    ensures FlexPlace(s, FlexBase(l), FlexEnd(l), size, a) <==> Open(rs, l, size, a)
  {
    if FlexPlace(s, FlexBase(l), FlexEnd(l), size, a) { NoOverlapIsFree(rs, s, a, a + size); }
    if Open(rs, l, size, a) {
      forall i | 0 <= i < |s| ensures !Overlaps(s[i], a, a + size) { assert !Meets(rs[s[i].base], a, a + size); }
    }
  }

  /** Every byte of the range is zero, but for those of the result word. */
  ghost predicate Zeroed(b: int -> Byte, lo: int, hi: int, slo: int, shi: int) {
    forall a :: lo <= a < hi && !(slo <= a < shi) ==> b(a) == 0
  }

  lemma StoredZeros(rs: Table, b: int -> Byte, base: int, size: nat)
    requires Stored(rs, true, b, base, Padded([], size))
    ensures Zeroed(b, base, base + size, 0, 0)
  {
    var zeros: seq<Byte> := Padded([], size);
    forall a | base <= a < base + size ensures b(a) == 0 {
      assert ByteAt(rs, true, b, base + (a - base), zeros[a - base]);
    }
  }

  lemma ZeroedStays(b0: int -> Byte, b1: int -> Byte, lo: int, hi: int, slo: int, shi: int)
    requires BytesKept(b0, b1, 0, 0, slo, shi)
    ensures Zeroed(b0, lo, hi, 0, 0) ==> Zeroed(b1, lo, hi, slo, shi)
  {
    forall a | Zeroed(b0, lo, hi, 0, 0) && lo <= a < hi && !(slo <= a < shi) ensures b1(a) == 0 {
      assert Off(a, 0, 0, slo, shi);
    }
  }

  /** A region settled in free space. */
  /** Telling the guest its address leaves the new memory clear. */
  lemma ToldFrame(x: Picture, y: Picture, z: Picture, native: bool, lo: int, hi: int, slo: int, shi: int,
                  data: seq<Byte>)
    requires Outside(x.regions, y.regions, lo, hi) && Frame(x, y, lo, hi, slo, shi)
    requires Outside(y.regions, z.regions, lo, hi) && Frame(y, z, 0, 0, slo, shi)
    requires Stored(y.regions, native, y.bytes, lo, data)
    ensures Outside(x.regions, z.regions, lo, hi) && Frame(x, z, lo, hi, slo, shi)
    ensures StoredBut(z.regions, native, z.bytes, lo, data, slo, shi)
  {
    OutsideTwice(x.regions, y.regions, z.regions, lo, hi);
    FrameKeepsStored(y, z, native, slo, shi, lo, data);
    FrameWider(y, z, lo, hi, slo, shi);
    FrameTwice(x, y, z, lo, hi, slo, shi);
  }

  lemma SettledFrame(x: Picture, y: Picture, lo: int, hi: int, slo: int, shi: int)
    requires lo !in x.regions && y.regions.Keys == x.regions.Keys + {lo}
    requires (forall k :: k in x.regions ==> y.regions[k] == x.regions[k]) && BytesKept(x.bytes, y.bytes, lo, hi, 0, 0)
    requires y.regions[lo].info.base == lo && End(y.regions[lo]) == hi
    ensures Outside(x.regions, y.regions, lo, hi) && Frame(x, y, lo, hi, slo, shi) && y.regions - {lo} == x.regions
  {
    OutsideOne(x.regions, y.regions, lo, lo, hi);
    TakenBack(y.regions, x.regions, lo);
    FrameOne(x, y, lo, lo, hi, 0, 0);
    FrameWider(x, y, lo, hi, slo, shi);
  }

  /** `more` is `less` with one more region, `k`. */
  ghost predicate OneMore(less: Table, more: Table, k: int) {
    k !in less && more.Keys == less.Keys + {k} && forall j :: j in less ==> more[j] == less[j]
  }

  lemma TakenBack(x: Table, y: Table, k: int)
    requires OneMore(y, x, k)
    ensures x - {k} == y
  {
    var z := x - {k};
    assert forall j :: j in z <==> j in y;
    assert forall j :: j in z ==> z[j] == y[j];
  }

  /** What a region contributes to the flexible count. */
  function FlexSize(r: Region): int { if r.info.kind == Flexible then r.info.size else 0 }

  lemma CountRegion(rs: Table, native: bool, k: int)
    requires Valid(rs, native) && k in rs
    ensures Count(rs, k, End(rs[k])) == FlexSize(rs[k])
  {
    forall a | k <= a < End(rs[k]) ensures FlexAt(rs, a) <==> rs[k].info.kind == Flexible {
      var c := CellOf(rs[k], a);
      assert CellAt(rs[k], a, c) && Has(rs, a, c);
      forall d | Has(rs, a, d) ensures d == c { OneCell(rs, native, a, c, d); }
    }
    if rs[k].info.kind == Flexible { CountAll(rs, k, End(rs[k])); } else { CountNone(rs, k, End(rs[k])); }
  }

  /** A direct region consists of guest pages. */
  predicate WholeRegion(r: Region) {
    r.info.kind == Direct ==> Aligned(r.info.base, GUEST_PAGE) && Aligned(r.info.size, GUEST_PAGE)
  }

  lemma NotDirect(rs: Table, native: bool, k: int)
    requires Valid(rs, native) && k in rs && rs[k].info.kind != Direct
    ensures forall a :: k <= a < End(rs[k]) ==> !DirectAt(rs, a)
  {
    forall a, d | k <= a < End(rs[k]) && Has(rs, a, d) ensures d.kind != Direct {
      var c := CellOf(rs[k], a);
      assert CellAt(rs[k], a, c) && Has(rs, a, c);
      OneCell(rs, native, a, c, d);
    }
  }

  /** Taking out one region balances the books by its flexible bytes. */
  lemma BooksWithout(rs: Table, rs': Table, native: bool, l: Layout, al: seq<Alloc>, used: int, k: int)
    requires Valid(rs, native) && Books(rs, l, al, used) && k in rs && Removed(rs, rs', k, k + rs[k].info.size)
    requires WholeRegion(rs[k])
    ensures Books(rs', l, al, used - FlexSize(rs[k]))
  {
    CountRegion(rs, native, k);
    if rs[k].info.kind == Direct { AlignedSum(k, rs[k].info.size, GUEST_PAGE); } else { NotDirect(rs, native, k); }
    BooksAfterRemove(rs, rs', l, al, used, k, End(rs[k]), FlexSize(rs[k]));
  }
}
