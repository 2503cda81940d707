/** The guest address space: an interval map updated in place, buffered or over a native arena. */
module AddressSpace {
  import opened Base
  import opened Align
  import opened Regions
  import opened HostPages
  import opened Removals

  lemma LeastKey(keys: set<int>, a: int) returns (k: int)
    requires exists j :: j in keys && j >= a
    ensures k in keys && k >= a && forall j :: j in keys && j >= a ==> k <= j
    decreases |keys|
  {
    var m :| m in keys && m >= a;
    k := m;
    if j :| j in keys && a <= j < m {
      assert j in keys - {m};
      k := LeastKey(keys - {m}, a);
      assert forall i :: i in keys && i >= a ==> i == m || i in keys - {m};
    }
  }

  lemma GreatestKey(keys: set<int>, a: int) returns (k: int)
    requires exists j :: j in keys && j <= a
    ensures k in keys && k <= a && forall j :: j in keys && j <= a ==> j <= k
    decreases |keys|
  {
    var m :| m in keys && m <= a;
    k := m;
    if j :| j in keys && m < j <= a {
      assert j in keys - {m};
      k := GreatestKey(keys - {m}, a);
      assert forall i :: i in keys && i <= a ==> i == m || i in keys - {m};
    }
  }

  /** The regions that do not meet [lo, hi) are as they were. */
  ghost predicate Spares(before: Table, after: Table, lo: int, hi: int) {
    forall k {:trigger Kept(before, after, k)} :: k in before && !Meets(before[k], lo, hi) ==> Kept(before, after, k)
  }

  ghost predicate Kept(before: Table, after: Table, k: int) {
    k in before && k in after && after[k] == before[k]
  }

  /** The arena can change the protection of the pages of [lo, lo + size). */
  predicate Requestable(n: Arena, page: U64, lo: int, size: int)
    requires page > 0
  {
    && size > 0 && n.base <= lo && Aligned(lo - n.base, page)
    && size + (page - 1) <= U64_MAX && lo + Ceil(size, page) <= ArenaEnd(n)
  }

  /** [lo, hi) consists of whole pages. */
  predicate OnPages(n: Arena, page: U64, lo: int, hi: int)
    requires page > 0
  {
    n.base <= lo && Aligned(lo, page) && Aligned(hi - lo, page)
  }

  /** What an unmapping takes out of each region consists of whole pages. */
  ghost predicate MetOnPages(rs: Table, lo: int, hi: int, n: Arena, page: U64)
    requires page > 0
  {
    forall k {:trigger PartOnPages(rs[k], lo, hi, n, page)} ::
      k in rs && Meets(rs[k], lo, hi) ==> PartOnPages(rs[k], lo, hi, n, page)
  }

  ghost predicate PartOnPages(r: Region, lo: int, hi: int, n: Arena, page: U64)
    requires page > 0
  {
    OnPages(n, page, RemovalOf(r, lo, hi).lo, RemovalOf(r, lo, hi).hi)
  }

  /** The range is the whole region, or consists of whole pages. */
  predicate Splittable(r: Region, base: int, size: int, n: Arena, page: U64)
    requires page > 0
  {
    (base == r.info.base && size == r.info.size) || OnPages(n, page, base, base + size)
  }

  lemma AlignedRest(x: int, y: int, unit: int)
    requires unit > 0 && Aligned(x, unit) && x <= y
    ensures Aligned(y, unit) <==> Aligned(y - x, unit)
  {
    AlignedSum(x, y - x, unit);
  }

  /** Whole pages of the arena can be requested. */
  lemma OnPagesRequestable(n: Arena, page: U64, lo: int, hi: int)
    requires page > 0 && GoodArena(n, page) && lo < hi <= ArenaEnd(n) && OnPages(n, page, lo, hi)
    ensures Requestable(n, page, lo, hi - lo)
  {
    AlignedRest(n.base, lo, page);
    AlignedStep(n.base, page);
  }

  lemma RegionRequestable(rs: Table, k: int, n: Arena, page: U64)
    requires page > 0 && GoodArena(n, page) && Valid(rs, true) && Placed(rs, n, page) && k in rs
    ensures Requestable(n, page, k, rs[k].info.size)
  {
    AlignedRest(n.base, k, page);
    AlignedStep(n.base, page);
    CeilShift(k, rs[k].info.size, page);
    CeilBounds(rs[k].info.size, page);
  }

  lemma PartRequestable(rs: Table, k: int, lo: int, hi: int, n: Arena, page: U64)
    requires page > 0 && GoodArena(n, page) && Valid(rs, true) && Placed(rs, n, page) && k in rs
    requires k <= lo < hi <= End(rs[k])
    ensures OnPages(n, page, lo, hi) <==> Requestable(n, page, lo, hi - lo) && Aligned(hi - lo, page)
  {
    PagesCover(rs[k], page);
    AlignedRest(n.base, lo, page);
    AlignedSum(n.base, lo - n.base, page);
    if OnPages(n, page, lo, hi) { OnPagesRequestable(n, page, lo, hi); }
  }

  /** The listed parts lie in the arena, and are whole pages exactly if those of the regions are. */
  lemma ListedOnPages(rs: Table, rms: seq<Removal>, lo: int, hi: int, n: Arena, page: U64, h: Pages)
    requires page > 0 && Valid(rs, true) && HostInv(rs, n, page, h) && lo < hi && Lists(rms, Met(rs, lo, hi), lo, hi)
    ensures forall i :: 0 <= i < |rms| ==> rms[i].hi <= ArenaEnd(n)
    ensures (forall i :: 0 <= i < |rms| ==> OnPages(n, page, rms[i].lo, rms[i].hi)) <==> MetOnPages(rs, lo, hi, n, page)
  {
    var met := Met(rs, lo, hi);
    forall i | 0 <= i < |rms|
      ensures rms[i].hi <= ArenaEnd(n) && rms[i].key in rs && rms[i] == RemovalOf(rs[rms[i].key], lo, hi)
    {
      assert ListsOne(rms[i], met, lo, hi);
      PagesCover(rs[rms[i].key], page);
    }
    if forall i :: 0 <= i < |rms| ==> OnPages(n, page, rms[i].lo, rms[i].hi) {
      forall k | k in rs && Meets(rs[k], lo, hi) ensures PartOnPages(rs[k], lo, hi, n, page) {
        assert k in met;
        var i :| 0 <= i < |rms| && rms[i].key == k;
      }
    }
    if MetOnPages(rs, lo, hi, n, page) {
      forall i | 0 <= i < |rms| ensures OnPages(n, page, rms[i].lo, rms[i].hi) {
        assert ListsOne(rms[i], met, lo, hi);
        assert PartOnPages(rs[rms[i].key], lo, hi, n, page);
      }
    }
  }

  class GuestAddressSpace {
    var regions: Table
    const arena: Option<Arena>
    /** Host page size. */
    const page: U64
    /** Host protections and contents of the arena. */
    var pages: Pages
    var bytes: int -> Byte
    /** The host may refuse any request that does not restore an earlier protection. */
    const refuses: nat -> bool
    var asked: nat

    predicate Native() { arena.Some? }

    ghost predicate Inv()
      reads this
    {
      page > 0 && Valid(regions, Native()) && (Native() ==> HostInv(regions, arena.value, page, pages))
    }

    constructor (arena: Option<Arena>, page: U64, bytes: int -> Byte, refuses: nat -> bool)
      requires page > 0 && (arena.Some? ==> GoodArena(arena.value, page))
      ensures Inv() && regions == map[] && this.arena == arena && this.page == page && this.refuses == refuses
    {
      this.regions, this.arena, this.page := map[], arena, page;
      this.pages, this.bytes, this.refuses, this.asked := _ => NO_ACCESS, bytes, refuses, 0;
    }

    // ---- Ordered lookup -------------------------------------------------

    method LowerBound(a: int) returns (k: Option<int>)
      ensures k.Some? ==> k.value in regions && k.value >= a && forall j :: j in regions && j >= a ==> k.value <= j
      ensures k.None? ==> forall j :: j in regions ==> j < a
    {
      k := None;
      if exists j :: j in regions && j >= a {
        ghost var w := LeastKey(regions.Keys, a);
        var l :| l in regions && l >= a && forall j :: j in regions && j >= a ==> l <= j;
        k := Some(l);
      }
    }

    /** The region that contains an address. */
    method FindRegion(a: int) returns (k: Option<int>)
      requires Valid(regions, Native())
      ensures k.Some? ==> k.value in regions && Covers(regions[k.value], a)
      ensures k.None? <==> !Mapped(regions, a)
    {
      k := None;
      if exists j :: j in regions && j <= a {
        ghost var w := GreatestKey(regions.Keys, a);
        var l :| l in regions && l <= a && forall j :: j in regions && j <= a ==> j <= l;
        if a < End(regions[l]) { k := Some(l); }
        assert forall j :: j in regions && Covers(regions[j], a) ==> j == l;
      }
    }

    // ---- Host requests --------------------------------------------------

    /** A protection request that is in order for the arena. */
    predicate InOrder(lo: int, size: int)
      requires page > 0
    {
      arena.Some? && Requestable(arena.value, page, lo, size)
    }

    /** The host refuses nothing that is in order. */
    ghost predicate Willing() { forall n :: !refuses(n) }

    /** Nothing is refused: there is no host to ask, or it refuses nothing. */
    ghost predicate Answers() { !Native() || Willing() }

    method HostProtect(lo: int, size: int, p: Prot) returns (ok: bool)
      requires page > 0
      modifies `pages, `asked
      ensures ok ==> InOrder(lo, size)
      ensures Willing() ==> (ok <==> InOrder(lo, size))
      ensures pages == if ok then Paint(old(pages), lo, lo + Ceil(size, page), p) else old(pages)
    {
      ok := InOrder(lo, size) && !refuses(asked);
      asked := asked + 1;
      if ok { pages := Paint(pages, lo, lo + Ceil(size, page), p); }
    }

    /** Putting back an earlier protection: never refused by the host. */
    method HostRestore(lo: int, size: int, p: Prot)
      requires page > 0 && InOrder(lo, size)
      modifies `pages
      ensures pages == Paint(old(pages), lo, lo + Ceil(size, page), p)
    {
      pages := Paint(pages, lo, lo + Ceil(size, page), p);
    }

    lemma InOrderPages(lo: int, size: int)
      requires page > 0 && InOrder(lo, size) && GoodArena(arena.value, page)
      ensures Aligned(lo, page) && lo + Ceil(size, page) == Ceil(lo + size, page)
    {
      AlignedSum(arena.value.base, lo - arena.value.base, page);
      CeilShift(lo, size, page);
    }

    // ---- Mapping --------------------------------------------------------

    /** Adds a region if its range is free; a native space also needs its pages opened. */
    method Map(info: Info) returns (ok: bool)
      requires Inv()
      modifies `regions, `pages, `asked
      ensures Inv()
      ensures ok ==> 0 < info.size && info.base + info.size <= U64_MAX
                     && Free(old(regions), info.base, info.base + info.size)
      ensures ok ==> exists r: Region :: r.info == info && regions == old(regions)[info.base := r]
                                         && Added(old(regions), regions, r)
                                         && (!Native() ==> forall i :: 0 <= i < |r.storage| ==> r.storage[i] == 0)
      ensures ok ==> info.base in regions && regions[info.base].info == info
                     && (Native() ==> InOrder(info.base, info.size))
      ensures !ok ==> regions == old(regions) && pages == old(pages)
      ensures Answers() ==>
                (ok <==> 0 < info.size && info.base + info.size <= U64_MAX
                         && Free(old(regions), info.base, info.base + info.size)
                         && (Native() ==> InOrder(info.base, info.size)))
    {
      ok := false;
      if info.size == 0 || info.base > U64_MAX - info.size { return; }
      var end := info.base + info.size;
      var next := LowerBound(info.base);
      if next.Some? && next.value < end { assert Meets(regions[next.value], info.base, end); return; }
      var previous := FindRegion(info.base);
      if previous.Some? { assert Meets(regions[previous.value], info.base, end); return; }
      assert Free(regions, info.base, end);
      var r := Region(info, if Native() then [] else seq(info.size, _ => 0));
      AddedWhole(regions, r, Native());
      if Native() {
        var granted := HostProtect(info.base, info.size, info.prot);
        if !granted { return; }
        InOrderPages(info.base, info.size);
        AfterAdding(regions, r, arena.value, page, old(pages));
      }
      regions := regions[info.base := r];
      ok := true;
    }

    /** Removes one region, named by its exact base and size. */
    method Unmap(base: int, size: int) returns (ok: bool)
      requires Inv()
      modifies `regions, `pages, `asked
      ensures Inv()
      ensures ok ==> base in old(regions) && old(regions)[base].info.size == size && regions == old(regions) - {base}
      ensures ok ==> Removed(old(regions), regions, base, base + size)
      ensures !ok ==> regions == old(regions) && pages == old(pages)
      ensures Answers() ==> (ok <==> base in old(regions) && old(regions)[base].info.size == size)
    {
      ok := false;
      if base !in regions || regions[base].info.size != size { return; }
      if Native() {
        RegionRequestable(regions, base, arena.value, page);
        var granted := HostProtect(base, size, NO_ACCESS);
        if !granted { return; }
        InOrderPages(base, size);
        AfterDropping(regions, base, arena.value, page, old(pages));
      }
      ValidWithout(regions, base, Native());
      WithoutRemoved(regions, base, Native());
      regions := regions - {base};
      ok := true;
    }

    /** Unmapping, as clean-up, of a region just mapped: the pages go back to what they were before it. */
    method Undo(base: int, size: int)
      requires Inv() && base in regions && regions[base].info.size == size && (Native() ==> InOrder(base, size))
      modifies `regions, `pages
      ensures Inv() && regions == old(regions) - {base} && Removed(old(regions), regions, base, base + size)
    {
      if Native() {
        HostRestore(base, size, NO_ACCESS);
        InOrderPages(base, size);
        AfterDropping(regions, base, arena.value, page, old(pages));
      }
      ValidWithout(regions, base, Native());
      WithoutRemoved(regions, base, Native());
      regions := regions - {base};
    }

    // ---- Taking a range out ---------------------------------------------

    /** `next` is the first region at or above `cur`. */
    predicate Upcoming(cur: int, next: Option<int>)
      reads this
    {
      && (next.Some? ==> next.value in regions && next.value >= cur
                         && forall j :: j in regions && j >= cur ==> next.value <= j)
      && (next.None? ==> forall j :: j in regions ==> j < cur)
    }

    /** `rms` and `prepared` are right for the regions `ks`, which are those below `cur` that meet the range. */
    ghost predicate Gathered(lo: int, hi: int, cur: int, ks: seq<int>, rms: seq<Removal>, prepared: Table)
      reads this
      requires Valid(regions, Native())
    {
      MetKeys(regions, lo, hi, cur, ks) && rms == RemovalsOf(regions, ks, lo, hi)
      && prepared == PiecesOf(regions, ks, lo, hi, Native())
    }

    method Gather(lo: int, hi: int, ghost cur: int, k: int, rms: seq<Removal>, prepared: Table, ghost ks: seq<int>)
      returns (rms': seq<Removal>, prepared': Table)
      requires Valid(regions, Native()) && k in regions && Meets(regions[k], lo, hi) && cur <= k
      requires Gathered(lo, hi, cur, ks, rms, prepared)
               && forall j :: j in regions && Meets(regions[j], lo, hi) && j >= cur ==> k <= j
      ensures Gathered(lo, hi, k + 1, ks + [k], rms', prepared')
    {
      OneMoreKey(regions, ks, k, lo, hi, Native());
      MetKeysMore(regions, lo, hi, cur, k, ks);
      rms', prepared' := rms + [RemovalOf(regions[k], lo, hi)], prepared + Rest(regions[k], lo, hi, Native());
    }

    /** The region that reaches into the range from below, if any. */
    method GatherFirst(lo: int, hi: int) returns (rms: seq<Removal>, prepared: Table, ghost ks: seq<int>)
      requires Valid(regions, Native()) && 0 <= lo < hi <= U64_MAX
      ensures Gathered(lo, hi, lo, ks, rms, prepared)
    {
      rms, prepared, ks := [], map[], [];
      var containing := FindRegion(lo);
      if containing.Some? && containing.value < lo {
        FirstMet(regions, Native(), lo, hi, containing.value);
        rms, prepared := Gather(lo, hi, containing.value, containing.value, rms, prepared, ks);
        ks := ks + [containing.value];
        MetKeysSame(regions, lo, hi, containing.value + 1, lo, ks);
      } else {
        forall k | k in regions && Covers(regions[k], lo) ensures lo <= k {
          assert containing.Some?;
          OneOwner(regions, Native(), k, containing.value, lo);
        }
        NoneReachesIn(regions, Native(), lo, hi);
      }
    }

    /** First pass of an unmapping: what to take out of which region, and what is left. */
    method PrepareRemoval(lo: int, hi: int) returns (rms: seq<Removal>, prepared: Table, ghost ks: seq<int>)
      requires Valid(regions, Native()) && 0 <= lo < hi <= U64_MAX
      ensures Gathered(lo, hi, hi, ks, rms, prepared)
    {
      rms, prepared, ks := GatherFirst(lo, hi);
      var next := LowerBound(lo);
      ghost var cur := lo;
      while next.Some? && next.value < hi
        invariant lo <= cur <= hi && Gathered(lo, hi, cur, ks, rms, prepared) && Upcoming(cur, next)
        decreases hi - cur
      {
        var k := next.value;
        rms, prepared := Gather(lo, hi, cur, k, rms, prepared, ks);
        cur, ks := k + 1, ks + [k];
        next := LowerBound(k + 1);
      }
      MetKeysSame(regions, lo, hi, cur, hi, ks);
    }

    /** Puts back the first `applied` of the listed protections. */
    method Rollback(rms: seq<Removal>, applied: nat, ghost before: Pages)
      requires page > 0 && applied <= |rms| && Cleared(rms[..applied], before, pages)
      requires forall i, j :: 0 <= i < j < |rms| ==> rms[i].hi <= rms[j].lo
      requires forall i, a :: 0 <= i < |rms| && rms[i].lo <= a < rms[i].hi ==> before(a) == rms[i].prot
      requires forall j :: 0 <= j < applied ==> InOrder(rms[j].lo, rms[j].hi - rms[j].lo)
                                                && Aligned(rms[j].hi - rms[j].lo, page)
      modifies `pages
      ensures SamePages(before, pages)
    {
      var i := applied;
      while i != 0
        invariant 0 <= i <= applied && Cleared(rms[..i], before, pages)
      {
        i := i - 1;
        ghost var h := pages;
        HostRestore(rms[i].lo, rms[i].hi - rms[i].lo, rms[i].prot);
        RestoredOne(rms, i, before, h);
      }
    }

    /** Every listed part consists of whole pages of the arena. */
    method ChecksPages(rms: seq<Removal>) returns (ok: bool)
      requires page > 0 && arena.Some?
      ensures ok <==> forall j :: 0 <= j < |rms| ==> OnPages(arena.value, page, rms[j].lo, rms[j].hi)
    {
      for i := 0 to |rms|
        invariant forall j :: 0 <= j < i ==> OnPages(arena.value, page, rms[j].lo, rms[j].hi)
      {
        if rms[i].lo < arena.value.base || !Aligned(rms[i].lo, page) || !Aligned(rms[i].hi - rms[i].lo, page) {
          assert !OnPages(arena.value, page, rms[i].lo, rms[i].hi);
          return false;
        }
      }
      return true;
    }

    /** Whole pages, one part after the other, each with the protection listed for it. */
    ghost predicate Closable(rms: seq<Removal>, before: Pages)
      requires page > 0
    {
      && (forall i, j :: 0 <= i < j < |rms| ==> rms[i].hi <= rms[j].lo)
      && (forall i, a :: 0 <= i < |rms| && rms[i].lo <= a < rms[i].hi ==> before(a) == rms[i].prot)
      && (forall j :: 0 <= j < |rms| ==> Aligned(rms[j].hi - rms[j].lo, page))
    }

    /** One turn of the second pass: the next part is closed too, or all those before it are put back. */
    method CloseOne(rms: seq<Removal>, applied: nat, ghost before: Pages) returns (ok: bool)
      requires page > 0 && applied < |rms| && Closable(rms, before) && Cleared(rms[..applied], before, pages)
      requires forall j :: 0 <= j < applied ==> InOrder(rms[j].lo, rms[j].hi - rms[j].lo)
      modifies `pages, `asked
      ensures if ok then Cleared(rms[..applied + 1], before, pages)
                         && InOrder(rms[applied].lo, rms[applied].hi - rms[applied].lo)
              else SamePages(before, pages)
      ensures Willing() ==> (ok <==> InOrder(rms[applied].lo, rms[applied].hi - rms[applied].lo))
    {
      ghost var h := pages;
      ok := HostProtect(rms[applied].lo, rms[applied].hi - rms[applied].lo, NO_ACCESS);
      if ok {
        ClosedOne(rms, applied, before, h);
      } else {
        Rollback(rms, applied, before);
      }
    }

    /** Second pass, native only: closes the listed pages, or puts every one of them back. */
    method ClosePages(rms: seq<Removal>) returns (ok: bool)
      requires page > 0 && arena.Some? && GoodArena(arena.value, page)
      requires forall i, j :: 0 <= i < j < |rms| ==> rms[i].hi <= rms[j].lo
      requires forall i :: 0 <= i < |rms| ==> rms[i].lo < rms[i].hi
      requires forall i, a :: 0 <= i < |rms| && rms[i].lo <= a < rms[i].hi ==> pages(a) == rms[i].prot
      modifies `pages, `asked
      ensures ok ==> WholePages(rms, page) && Cleared(rms, old(pages), pages)
      ensures !ok ==> SamePages(old(pages), pages)
      ensures Willing() && (forall i :: 0 <= i < |rms| ==> rms[i].hi <= ArenaEnd(arena.value)) ==>
                (ok <==> forall i :: 0 <= i < |rms| ==> OnPages(arena.value, page, rms[i].lo, rms[i].hi))
    {
      ok := ChecksPages(rms);
      if !ok { return; }
      ghost var before := pages;
      for applied := 0 to |rms|
        invariant Cleared(rms[..applied], before, pages)
        invariant forall j :: 0 <= j < applied ==> InOrder(rms[j].lo, rms[j].hi - rms[j].lo)
      {
        assert OnPages(arena.value, page, rms[applied].lo, rms[applied].hi);
        if rms[applied].hi <= ArenaEnd(arena.value) {
          OnPagesRequestable(arena.value, page, rms[applied].lo, rms[applied].hi);
        }
        ok := CloseOne(rms, applied, before);
        if !ok { return; }
      }
      assert rms[..|rms|] == rms;
      forall i | 0 <= i < |rms| ensures Aligned(rms[i].hi, page) { AlignedSum(rms[i].lo, rms[i].hi - rms[i].lo, page); }
      ok := true;
    }

    /** The host half of taking a range out. */
    method CloseMet(lo: int, hi: int, rms: seq<Removal>, ghost pieces: Table) returns (ok: bool)
      requires Inv() && Native() && lo < hi && Prepared(regions, lo, hi, true, hi, rms, pieces)
      modifies `pages, `asked
      ensures ok ==> HostInv((regions - Met(regions, lo, hi).Keys) + pieces, arena.value, page, pages)
      ensures !ok ==> SamePages(old(pages), pages) && HostInv(regions, arena.value, page, pages)
      ensures Willing() ==> (ok <==> MetOnPages(regions, lo, hi, arena.value, page))
    {
      PreparedCommits(regions, lo, hi, true, rms, pieces);
      PagesAsListed(regions, rms, lo, hi, arena.value, page, pages);
      ListedOnPages(regions, rms, lo, hi, arena.value, page, pages);
      ok := ClosePages(rms);
      if ok {
        AfterRemoval(regions, rms, pieces, lo, hi, arena.value, page, old(pages), pages);
      } else {
        SameInv(regions, arena.value, page, old(pages), pages);
      }
    }

    /** The table without a range, once the host agrees. */
    method TakeOut(lo: int, hi: int) returns (ok: bool, after: Table)
      requires Inv() && 0 <= lo < hi <= U64_MAX
      modifies `pages, `asked
      ensures ok ==> Valid(after, Native()) && Removed(regions, after, lo, hi)
                     && (Native() ==> HostInv(after, arena.value, page, pages)) && Spares(regions, after, lo, hi)
      ensures !ok ==> Inv() && SamePages(old(pages), pages)
      ensures Answers() ==> (ok <==> (Native() ==> MetOnPages(regions, lo, hi, arena.value, page)))
    {
      ghost var ks;
      var rms, prepared;
      rms, prepared, ks := PrepareRemoval(lo, hi);
      PreparedByKeys(regions, lo, hi, Native(), hi, ks);
      PreparedCommits(regions, lo, hi, Native(), rms, prepared);
      ok, after := true, map[];
      if Native() { ok := CloseMet(lo, hi, rms, prepared); }
      if ok {
        var left := Erase(regions, rms, Met(regions, lo, hi), lo, hi);
        after := left + prepared;
      }
    }

    /** Takes a range out of every region and hole that it spans. Refusal changes nothing. */
    method UnmapRange(base: U64, size: U64) returns (ok: bool)
      requires Inv()
      modifies `regions, `pages, `asked
      ensures Inv()
      ensures ok ==> 0 < size && base + size <= U64_MAX && Removed(old(regions), regions, base, base + size)
                     && Spares(old(regions), regions, base, base + size)
      ensures !ok ==> regions == old(regions) && SamePages(old(pages), pages)
      ensures Answers() ==>
                (ok <==> 0 < size && base + size <= U64_MAX
                         && (Native() ==> MetOnPages(old(regions), base, base + size, arena.value, page)))
    {
      ok := false;
      if size == 0 || base > U64_MAX - size { return; }
      var after;
      ok, after := TakeOut(base, base + size);
      if ok { regions := after; }
    }

    // ---- Protection -----------------------------------------------------

    /** The host half of changing the protection of one whole region. */
    method RepaintAll(k: int, size: int, p: Prot) returns (ok: bool)
      requires Inv() && Native() && k in regions && regions[k].info.size == size
      modifies `pages, `asked
      ensures ok ==> HostInv(regions[k := regions[k].(info := regions[k].info.(prot := p))], arena.value, page, pages)
      ensures !ok ==> pages == old(pages)
      ensures Willing() ==> ok
    {
      RegionRequestable(regions, k, arena.value, page);
      ok := HostProtect(k, size, p);
      if ok {
        InOrderPages(k, size);
        AfterRepainting(regions, k, p, arena.value, page, old(pages));
      }
    }

    /** Sets the protection of one region, named by its exact base and size. */
    method Protect(base: int, size: int, p: Prot) returns (ok: bool)
      requires Inv()
      modifies `regions, `pages, `asked
      ensures Inv()
      ensures ok ==> base in old(regions) && old(regions)[base].info.size == size
                     && Reprotected(old(regions), regions, base, base + size, p)
      ensures ok ==> regions == old(regions)[base := old(regions)[base].(info := old(regions)[base].info.(prot := p))]
      ensures !ok ==> regions == old(regions) && pages == old(pages)
      ensures Answers() ==> (ok <==> base in old(regions) && old(regions)[base].info.size == size)
    {
      ok := false;
      if base !in regions || regions[base].info.size != size { return; }
      if Native() {
        var granted := RepaintAll(base, size, p);
        if !granted { return; }
      }
      RepaintedWhole(regions, base, p, Native());
      regions := regions[base := regions[base].(info := regions[base].info.(prot := p))];
      ok := true;
    }

    /** The host half of splitting a region around a range of whole pages. */
    method RepaintPart(k: int, base: int, size: int, p: Prot, after: Table) returns (ok: bool)
      requires page > 0 && Native() && Valid(regions, true) && HostInv(regions, arena.value, page, pages)
      requires k in regions && k <= base && 0 < size && base + size <= End(regions[k])
      requires IsSplit(regions, k, base, base + size, p, true, after)
      modifies `pages, `asked
      ensures ok ==> HostInv(after, arena.value, page, pages)
      ensures !ok ==> pages == old(pages)
      ensures Willing() ==> (ok <==> Aligned(size, page) && InOrder(base, size))
    {
      ok := false;
      if !Aligned(size, page) { return; }
      ok := HostProtect(base, size, p);
      if ok {
        InOrderPages(base, size);
        AlignedSum(base, size, page);
        AfterReprotecting(regions, k, base, base + size, p, arena.value, page, old(pages));
      }
    }

    /** The table with the region split around a range within it, once the host agrees. */
    method SplitProtect(k: int, base: int, size: int, p: Prot) returns (ok: bool, after: Table)
      requires Inv() && k in regions && k <= base && 0 < size && base + size <= End(regions[k])
      modifies `pages, `asked
      ensures ok ==> Valid(after, Native()) && Reprotected(regions, after, base, base + size, p)
      ensures ok && Native() ==> HostInv(after, arena.value, page, pages)
      ensures !ok ==> pages == old(pages)
      ensures Answers() ==> (ok <==> (Native() ==> OnPages(arena.value, page, base, base + size)))
    {
      after := SplitTable(regions, k, base, base + size, p, Native());
      ok := true;
      if Native() {
        PartRequestable(regions, k, base, base + size, arena.value, page);
        ok := RepaintPart(k, base, size, p, after);
      }
    }

    /** Sets the protection of a range that lies within one region. */
    method ProtectRange(base: U64, size: U64, p: Prot) returns (ok: bool)
      requires Inv()
      modifies `regions, `pages, `asked
      ensures Inv()
      ensures ok ==> 0 < size && Reprotected(old(regions), regions, base, base + size, p)
      ensures ok ==> exists k :: k in old(regions) && k <= base && base + size <= End(old(regions)[k])
      ensures !ok ==> regions == old(regions) && pages == old(pages)
      ensures Answers() ==>
                (ok <==> 0 < size
                         && exists k :: k in old(regions) && k <= base && base + size <= End(old(regions)[k])
                                        && (Native() ==> Splittable(old(regions)[k], base, size, arena.value, page)))
    {
      ok := false;
      if size == 0 || base > U64_MAX - size { return; }
      var k := FindRegion(base);
      if k.None? { return; }
      var r := regions[k.value];
      if base + size > End(r) {
        assert forall j :: j in regions && j <= base && base + size <= End(regions[j]) ==>
                             Covers(regions[j], base) && j != k.value;
        return;
      }
      if base == r.info.base && size == r.info.size {
        ok := Protect(base, size, p);
      } else {
        var after;
        ok, after := SplitProtect(k.value, base, size, p);
        if ok { regions := after; }
      }
    }

    // ---- Contents -------------------------------------------------------

    /** The region that holds all of [a, a + n). */
    method Holder(a: int, n: nat) returns (k: Option<int>)
      requires Inv()
      ensures k.Some? ==> k.value in regions && k.value <= a && a + n <= End(regions[k.value])
                          && Covers(regions[k.value], a)
      ensures k.None? ==> forall j :: j in regions && Covers(regions[j], a) ==> End(regions[j]) < a + n
    {
      k := FindRegion(a);
      if k.Some? && n > regions[k.value].info.size - (a - k.value) {
        assert forall j :: j in regions && Covers(regions[j], a) ==> j == k.value by {
          forall j | j in regions && Covers(regions[j], a) ensures j == k.value {
            OneOwner(regions, Native(), j, k.value, a);
          }
        }
        k := None;
      }
    }

    /** Puts bytes into a region; contents move, nothing else. */
    method Store(k: int, a: int, data: seq<Byte>)
      requires Valid(regions, Native()) && k in regions && k <= a && a + |data| <= End(regions[k])
      modifies `regions, `bytes
      ensures Valid(regions, Native()) && SameInfos(old(regions), regions)
      ensures forall j :: j in old(regions) && j != k ==> regions[j] == old(regions)[j]
      ensures !Native() ==> Written(old(regions), regions, a, data) && bytes == old(bytes)
      ensures Native() ==> regions == old(regions) && bytes == Filled(old(bytes), a, data)
      ensures Stored(regions, Native(), bytes, a, data)
    {
      if Native() {
        bytes := Filled(bytes, a, data);
      } else {
        WrittenWhole(regions, k, a, data);
        regions := regions[k := WriteTo(regions[k], a, data)];
        WrittenStored(old(regions), regions, bytes, k, a, data);
      }
    }

    /** What a successful or failed write of `data` at `a` leaves. */
    twostate predicate Wrote(ok: bool, a: int, data: seq<Byte>)
      reads this
    {
      && SameInfos(old(regions), regions)
      && (forall j :: j in old(regions) && !Covers(old(regions)[j], a) ==> regions[j] == old(regions)[j])
      && (!ok || data == [] ==> regions == old(regions) && bytes == old(bytes))
      && (ok && data != [] && !Native() ==> Written(old(regions), regions, a, data) && bytes == old(bytes))
      && (ok && data != [] && Native() ==> regions == old(regions) && bytes == Filled(old(bytes), a, data))
    }

    method Write(a: int, data: seq<Byte>) returns (ok: bool)
      requires Inv()
      modifies `regions, `bytes
      ensures Inv() && Wrote(ok, a, data) && (ok ==> Stored(regions, Native(), bytes, a, data))
      ensures ok <==> data == []
                      || exists k :: k in regions && Covers(regions[k], a) && regions[k].info.prot.write
                                     && a + |data| <= End(regions[k])
    {
      ok := true;
      if data == [] { return; }
      var k := Holder(a, |data|);
      ok := k.Some? && regions[k.value].info.prot.write;
      assert k.Some? ==> forall j :: j in regions && Covers(regions[j], a) ==> j == k.value by {
        forall j | k.Some? && j in regions && Covers(regions[j], a) ensures j == k.value {
          OneOwner(regions, Native(), j, k.value, a);
        }
      }
      if ok { Store(k.value, a, data); }
    }

    /** Writes whatever the protection; a native space opens the region's pages meanwhile and closes them again. */
    method Patch(a: int, data: seq<Byte>) returns (ok: bool)
      requires Inv()
      modifies `regions, `pages, `bytes, `asked
      ensures Inv() && Wrote(ok, a, data) && SamePages(old(pages), pages)
              && (ok ==> Stored(regions, Native(), bytes, a, data))
      ensures ok && data != [] ==> exists k :: k in regions && Covers(regions[k], a) && a + |data| <= End(regions[k])
      ensures !Native() ==> (ok <==> data == []
                                     || exists k :: k in regions && Covers(regions[k], a)
                                                    && a + |data| <= End(regions[k]))
    {
      ok := true;
      if data == [] { return; }
      var k := Holder(a, |data|);
      if k.None? { return false; }
      var r := regions[k.value];
      if Native() && !r.info.prot.write {
        ok := HostProtect(k.value, r.info.size, READ_WRITE);
        if !ok { return; }
        InOrderPages(k.value, r.info.size);
        Store(k.value, a, data);
        HostRestore(k.value, r.info.size, r.info.prot);
        assert SamePages(old(pages), pages);
        SameInv(regions, arena.value, page, old(pages), pages);
      } else {
        Store(k.value, a, data);
      }
    }

    /** Clears a range of one writable region. */
    method Zero(a: int, n: nat) returns (ok: bool)
      requires Inv()
      modifies `regions, `bytes
      ensures Inv() && Wrote(ok, a, seq(n, _ => 0)) && (ok ==> Stored(regions, Native(), bytes, a, seq(n, _ => 0)))
      ensures ok <==> exists k :: k in regions && Covers(regions[k], a) && regions[k].info.prot.write
                                  && a + n <= End(regions[k])
    {
      var k := Holder(a, n);
      ok := k.Some? && regions[k.value].info.prot.write;
      assert k.Some? ==> forall j :: j in regions && Covers(regions[j], a) ==> j == k.value by {
        forall j | k.Some? && j in regions && Covers(regions[j], a) ensures j == k.value {
          OneOwner(regions, Native(), j, k.value, a);
        }
      }
      if ok && n > 0 { Store(k.value, a, seq(n, _ => 0)); }
    }

    /** The bytes of a range of one region. */
    method View(a: int, n: nat) returns (v: Option<seq<Byte>>)
      requires Inv()
      ensures v.Some? ==> |v.value| == n && forall i :: 0 <= i < n ==> HoldsByte(a + i, v.value[i])
      ensures v.Some? ==> exists k :: k in regions && Covers(regions[k], a) && a + n <= End(regions[k])
      ensures v.None? ==> forall j :: j in regions && Covers(regions[j], a) ==> End(regions[j]) < a + n
    {
      var k := Holder(a, n);
      if k.None? { return None; }
      var r, b, at := regions[k.value], bytes, a - k.value;
      if Native() {
        v := Some(seq(n, i => b(a + i)));
      } else {
        v := Some(r.storage[at..at + n]);
        forall i | 0 <= i < n ensures HoldsByte(a + i, v.value[i]) {
          assert CellAt(r, a + i, CellOf(r, a + i));
        }
      }
    }

    /** The byte at a mapped address. */
    ghost predicate HoldsByte(a: int, b: Byte)
      reads this
    {
      ByteAt(regions, Native(), bytes, a, b)
    }

    /** The regions in address order. */
    method Infos() returns (s: seq<Info>)
      requires Inv()
      ensures Listing(regions, s)
    {
      s := [];
      var next := LowerBound(0);
      ghost var cur := 0;
      while next.Some?
        invariant 0 <= cur <= TWO64 && Upcoming(cur, next) && ListingBelow(regions, cur, s)
        decreases TWO64 - cur
      {
        var k := next.value;
        ListingMore(regions, cur, k, s);
        s := s + [regions[k].info];
        cur := k + 1;
        next := LowerBound(k + 1);
      }
    }
  }

  /** The byte that an address holds: in the arena, or in the storage of its region. */
  ghost predicate ByteAt(rs: Table, native: bool, bytes: int -> Byte, a: int, b: Byte) {
    if native then bytes(a) == b else exists c :: Has(rs, a, c) && c.byte == Some(b)
  }

  /** The addresses from `a` on hold `data`. */
  ghost predicate Stored(rs: Table, native: bool, bytes: int -> Byte, a: int, data: seq<Byte>) {
    forall i :: 0 <= i < |data| ==> ByteAt(rs, native, bytes, a + i, data[i])
  }

  lemma WrittenStored(before: Table, after: Table, bytes: int -> Byte, k: int, a: int, data: seq<Byte>)
    requires Valid(before, false) && k in before && k <= a && a + |data| <= End(before[k])
             && Written(before, after, a, data)
    ensures Stored(after, false, bytes, a, data)
  {
    forall i | 0 <= i < |data| ensures ByteAt(after, false, bytes, a + i, data[i]) {
      var c := CellOf(before[k], a + i);
      assert CellAt(before[k], a + i, c) && Has(before, a + i, c);
      assert Has(after, a + i, c.(byte := Some(data[i])));
    }
  }

  /** A later write leaves what it does not reach. */
  lemma WrittenKeeps(before: Table, after: Table, b0: int -> Byte, b1: int -> Byte, lo: int, data: seq<Byte>, a: int,
                     b: Byte)
    requires Written(before, after, lo, data) && ByteAt(before, false, b0, a, b) && !(lo <= a < lo + |data|)
    ensures ByteAt(after, false, b1, a, b)
  {
  }

  function Filled(b: int -> Byte, a: int, data: seq<Byte>): int -> Byte {
    x => if a <= x < a + |data| then data[x - a] else b(x)
  }

  ghost predicate IsSplit(rs: Table, k: int, lo: int, hi: int, p: Prot, native: bool, after: Table)
    requires Valid(rs, native) && k in rs && k <= lo < hi <= End(rs[k])
  {
    var t := Reprotect(rs[k], lo, hi, p, native);
    (rs - {k}).Keys !! t.Keys && after == (rs - {k}) + t
  }

  /** Replaces one region by its parts below, in and above the range. */
  method SplitTable(rs: Table, k: int, lo: int, hi: int, p: Prot, native: bool) returns (after: Table)
    requires Valid(rs, native) && k in rs && k <= lo < hi <= End(rs[k])
    ensures Valid(after, native) && Reprotected(rs, after, lo, hi, p) && IsSplit(rs, k, lo, hi, p, native, after)
  {
    ReprotectedWhole(rs, k, lo, hi, p, native);
    after := (rs - {k}) + Reprotect(rs[k], lo, hi, p, native);
  }

  lemma ClosedOne(rms: seq<Removal>, i: nat, before: Pages, h: Pages)
    requires i < |rms| && Cleared(rms[..i], before, h)
    ensures Cleared(rms[..i + 1], before, Paint(h, rms[i].lo, rms[i].hi, NO_ACCESS))
  {
    SomeMore(rms, i);
  }

  lemma RestoredOne(rms: seq<Removal>, i: nat, before: Pages, h: Pages)
    requires i < |rms| && Cleared(rms[..i + 1], before, h)
    requires forall j, a :: 0 <= j < |rms| && rms[j].lo <= a < rms[j].hi ==> before(a) == rms[j].prot
    requires forall j :: 0 <= j < i ==> rms[j].hi <= rms[i].lo || rms[i].hi <= rms[j].lo
    ensures Cleared(rms[..i], before, Paint(h, rms[i].lo, rms[i].hi, rms[i].prot))
  {
    SomeMore(rms, i);
  }

  lemma SomeMore(rms: seq<Removal>, i: nat)
    requires i < |rms|
    ensures forall a :: InSome(rms[..i + 1], a) <==> InSome(rms[..i], a) || rms[i].lo <= a < rms[i].hi
  {
    forall a ensures InSome(rms[..i + 1], a) <==> InSome(rms[..i], a) || rms[i].lo <= a < rms[i].hi {
      if InSome(rms[..i], a) {
        var j :| 0 <= j < i && rms[..i][j].lo <= a < rms[..i][j].hi;
        assert rms[..i + 1][j] == rms[j];
      }
      if rms[i].lo <= a < rms[i].hi { assert rms[..i + 1][i] == rms[i]; }
      if InSome(rms[..i + 1], a) && !(rms[i].lo <= a < rms[i].hi) {
        var j :| 0 <= j < i + 1 && rms[..i + 1][j].lo <= a < rms[..i + 1][j].hi;
        assert rms[..i][j] == rms[j];
      }
    }
  }

  lemma PagesAsListed(rs: Table, rms: seq<Removal>, lo: int, hi: int, n: Arena, page: int, h: Pages)
    requires page > 0 && Valid(rs, true) && HostInv(rs, n, page, h) && lo < hi && Lists(rms, Met(rs, lo, hi), lo, hi)
    ensures forall i :: 0 <= i < |rms| ==> rms[i].lo < rms[i].hi
    ensures forall i, a :: 0 <= i < |rms| && rms[i].lo <= a < rms[i].hi ==> h(a) == rms[i].prot
  {
    forall i | 0 <= i < |rms| ensures rms[i].lo < rms[i].hi
                                      && forall a :: rms[i].lo <= a < rms[i].hi ==> h(a) == rms[i].prot {
      assert ListsOne(rms[i], Met(rs, lo, hi), lo, hi);
      PagesCover(rs[rms[i].key], page);
    }
  }

  lemma SameInv(rs: Table, n: Arena, page: int, g: Pages, h: Pages)
    requires page > 0 && HostInv(rs, n, page, g) && SamePages(g, h)
    ensures HostInv(rs, n, page, h)
  {
  }

  /** Erasing the listed regions one by one. */
  method Erase(rs: Table, rms: seq<Removal>, ghost met: Table, ghost lo: int, ghost hi: int) returns (left: Table)
    requires Lists(rms, met, lo, hi)
    ensures left == rs - met.Keys
  {
    left := rs;
    for i := 0 to |rms|
      invariant forall k :: k in left ==> k in rs
      invariant forall k :: k in rs ==> k in left || k in met
      invariant forall j :: 0 <= j < i ==> rms[j].key !in left
      invariant forall k :: k in left ==> left[k] == rs[k]
    {
      assert ListsOne(rms[i], met, lo, hi);
      left := left - {rms[i].key};
    }
    forall k | k in met ensures k !in left { var i :| 0 <= i < |rms| && rms[i].key == k; }
    var want := rs - met.Keys;
    assert forall k :: k in want <==> k in rs && k !in met.Keys;
    assert forall k :: k in left <==> k in want;
    assert forall k :: k in left ==> left[k] == want[k];
    assert left == want;
  }

  lemma WithoutRemoved(rs: Table, k: int, native: bool)
    requires Valid(rs, native) && k in rs
    ensures Removed(rs, rs - {k}, k, End(rs[k]))
  {
    var left := rs - {k};
    forall a, c ensures Has(left, a, c) <==> Has(rs, a, c) && !(k <= a < End(rs[k])) {
      HasUnion(left, map[k := rs[k]], a, c);
      HasOne(k, rs[k], a, c);
      assert left + map[k := rs[k]] == rs;
      if Has(left, a, c) && k <= a < End(rs[k]) {
        var j :| j in left && CellAt(left[j], a, c);
        OneOwner(rs, native, j, k, a);
      }
    }
  }

  lemma ValidWithout(rs: Table, k: int, native: bool)
    requires Valid(rs, native)
    ensures Valid(rs - {k}, native)
  {
  }
}
