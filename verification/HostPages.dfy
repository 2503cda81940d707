/** Host page protections behind a native-backed address space. */
module HostPages {
  import opened Base
  import opened Align
  import opened Regions

  datatype Arena = Arena(base: U64, size: U64)

  /** The protection that the host gives to each arena address. */
  type Pages = int -> Prot

  function ArenaEnd(n: Arena): int { n.base + n.size }

  /** The end of the last host page of a region. */
  function PageEnd(r: Region, page: int): int
    requires page > 0
  {
    Ceil(End(r), page)
  }

  ghost predicate Owned(rs: Table, page: int, a: int)
    requires page > 0
  {
    exists k :: k in rs && k <= a < PageEnd(rs[k], page)
  }

  /** Pages of a region carry its protection. */
  ghost predicate Painted(rs: Table, page: int, h: Pages)
    requires page > 0
  {
    forall k, a :: k in rs && k <= a < PageEnd(rs[k], page) ==> h(a) == rs[k].info.prot
  }

  /** All other pages are closed. */
  ghost predicate Closed(rs: Table, page: int, h: Pages)
    requires page > 0
  {
    forall a :: !Owned(rs, page, a) ==> h(a) == NO_ACCESS
  }

  /** Regions start on a host page and their pages lie in the arena. */
  ghost predicate Placed(rs: Table, n: Arena, page: int)
    requires page > 0
  {
    forall k :: k in rs ==> Aligned(k, page) && n.base <= k && PageEnd(rs[k], page) <= ArenaEnd(n)
  }

  ghost predicate GoodArena(n: Arena, page: int)
    requires page > 0
  {
    0 < n.base && ArenaEnd(n) <= U64_MAX && Aligned(n.base, page) && Aligned(n.size, page)
  }

  ghost predicate HostInv(rs: Table, n: Arena, page: int, h: Pages)
    requires page > 0
  {
    GoodArena(n, page) && Placed(rs, n, page) && Painted(rs, page, h) && Closed(rs, page, h)
  }

  /** Different regions never share a host page. */
  lemma PagesApart(rs: Table, n: Arena, page: int, j: int, k: int)
    requires page > 0 && Valid(rs, true) && Placed(rs, n, page) && j in rs && k in rs && j < k
    ensures PageEnd(rs[j], page) <= k
  {
    CeilLeast(End(rs[j]), k, page);
  }

  lemma PagesCover(r: Region, page: int)
    requires page > 0 && Fit(r, true)
    ensures End(r) <= PageEnd(r, page)
  {
    CeilBounds(End(r), page);
  }

  function Paint(h: Pages, lo: int, hi: int, p: Prot): Pages {
    a => if lo <= a < hi then p else h(a)
  }

  ghost predicate SamePages(g: Pages, h: Pages) { forall a :: g(a) == h(a) }

  // ---- Taking pages out -------------------------------------------------

  /** The part [lo, hi) of region `key` that an unmapping takes out. */
  datatype Removal = Removal(key: int, lo: int, hi: int, prot: Prot)

  ghost predicate InSome(rms: seq<Removal>, a: int) { exists i :: 0 <= i < |rms| && rms[i].lo <= a < rms[i].hi }

  /** One removal for each region that meets the range. */
  ghost predicate Lists(rms: seq<Removal>, met: Table, lo: int, hi: int) {
    && (forall i :: 0 <= i < |rms| ==> ListsOne(rms[i], met, lo, hi))
    && (forall k :: k in met ==> exists i :: 0 <= i < |rms| && rms[i].key == k)
  }

  ghost predicate ListsOne(m: Removal, met: Table, lo: int, hi: int) {
    && m.key in met && Meets(met[m.key], lo, hi) && m.prot == met[m.key].info.prot
    && m.lo == (if m.key < lo then lo else m.key) && m.hi == (if End(met[m.key]) < hi then End(met[m.key]) else hi)
  }

  ghost predicate WholePages(rms: seq<Removal>, page: int)
    requires page > 0
  {
    forall i :: 0 <= i < |rms| ==> Aligned(rms[i].lo, page) && Aligned(rms[i].hi, page)
  }

  /** `h'` is `h` with the listed parts closed. */
  ghost predicate Cleared(rms: seq<Removal>, h: Pages, h': Pages) {
    forall a :: h'(a) == if InSome(rms, a) then NO_ACCESS else h(a)
  }

  lemma RemovalOwner(rs: Table, rms: seq<Removal>, lo: int, hi: int, n: Arena, page: int, k: int, a: int)
    requires page > 0 && Valid(rs, true) && Placed(rs, n, page) && Lists(rms, Met(rs, lo, hi), lo, hi)
    requires InSome(rms, a) && k in rs && k <= a < PageEnd(rs[k], page)
    ensures k in Met(rs, lo, hi) && lo <= a < hi && a < End(rs[k])
  {
    var i :| 0 <= i < |rms| && rms[i].lo <= a < rms[i].hi;
    assert ListsOne(rms[i], Met(rs, lo, hi), lo, hi);
    var j := rms[i].key;
    PagesCover(rs[j], page);
    if j < k { PagesApart(rs, n, page, j, k); }
    if k < j { PagesApart(rs, n, page, k, j); }
  }

  lemma PieceOwns(pieces: Table, q: int, page: int, a: int)
    requires page > 0 && q in pieces && q <= a < PageEnd(pieces[q], page)
    ensures Owned(pieces, page, a)
  {
  }

  lemma OwnedUnion(x: Table, y: Table, page: int, a: int)
    requires page > 0 && x.Keys !! y.Keys
    ensures Owned(x, page, a) || Owned(y, page, a) ==> Owned(x + y, page, a)
  {
    if Owned(x, page, a) {
      var k :| k in x && k <= a < PageEnd(x[k], page);
      assert k in x + y && (x + y)[k] == x[k];
    }
    if Owned(y, page, a) {
      var k :| k in y && k <= a < PageEnd(y[k], page);
      assert k in x + y && (x + y)[k] == y[k];
    }
  }

  lemma PiecePages(rs: Table, rms: seq<Removal>, pieces: Table, lo: int, hi: int, n: Arena, page: int, q: int)
    returns (k: int)
    requires page > 0 && Valid(rs, true) && Placed(rs, n, page) && lo < hi && AllMeet(Met(rs, lo, hi), lo, hi)
    requires Lists(rms, Met(rs, lo, hi), lo, hi) && WholePages(rms, page)
    requires Leaves(Met(rs, lo, hi), pieces, lo, hi, true) && q in pieces
    ensures k in Met(rs, lo, hi) && Aligned(q, page) && k <= q && PageEnd(pieces[q], page) <= PageEnd(rs[k], page)
    ensures pieces[q].info.prot == rs[k].info.prot && (PageEnd(pieces[q], page) <= lo || hi <= q)
  {
    k := PieceInside(Met(rs, lo, hi), pieces, lo, hi, true, q);
    PagesCover(rs[k], page);
    var i :| 0 <= i < |rms| && rms[i].key == k;
    assert ListsOne(rms[i], Met(rs, lo, hi), lo, hi);
  }

  /** A page of a met region was taken out or belongs to what is left of it. */
  lemma ListedOrLeft(rs: Table, rms: seq<Removal>, pieces: Table, lo: int, hi: int, n: Arena, page: int, k: int, a: int)
    requires page > 0 && Valid(rs, true) && Placed(rs, n, page) && k in Met(rs, lo, hi) && lo < hi
             && AllMeet(Met(rs, lo, hi), lo, hi)
    requires Lists(rms, Met(rs, lo, hi), lo, hi) && WholePages(rms, page)
             && Leaves(Met(rs, lo, hi), pieces, lo, hi, true)
    requires k <= a < PageEnd(rs[k], page)
    ensures InSome(rms, a) || Owned(pieces, page, a)
  {
    var met := Met(rs, lo, hi);
    var i :| 0 <= i < |rms| && rms[i].key == k;
    assert ListsOne(rms[i], met, lo, hi);
    if a < rms[i].lo {
      PieceFits(rs[k], k, lo, rs[k].info.prot, true);
      CeilBounds(lo, page);
      PieceOwns(pieces, k, page, a);
    } else if a >= rms[i].hi {
      PieceFits(rs[k], hi, End(rs[k]), rs[k].info.prot, true);
      PieceOwns(pieces, hi, page, a);
    }
  }

  lemma GoneIsClosed(rs: Table, rms: seq<Removal>, pieces: Table, lo: int, hi: int, n: Arena, page: int, h: Pages,
                     h': Pages, a: int)
    requires page > 0 && Valid(rs, true) && HostInv(rs, n, page, h) && lo < hi && AllMeet(Met(rs, lo, hi), lo, hi)
    requires Lists(rms, Met(rs, lo, hi), lo, hi) && WholePages(rms, page)
             && Leaves(Met(rs, lo, hi), pieces, lo, hi, true)
    requires Cleared(rms, h, h') && (rs - Met(rs, lo, hi).Keys).Keys !! pieces.Keys
    requires !Owned((rs - Met(rs, lo, hi).Keys) + pieces, page, a)
    ensures h'(a) == NO_ACCESS
  {
    var met := Met(rs, lo, hi);
    OwnedUnion(rs - met.Keys, pieces, page, a);
    if Owned(rs, page, a) {
      var k :| k in rs && k <= a < PageEnd(rs[k], page);
      if k in met {
        ListedOrLeft(rs, rms, pieces, lo, hi, n, page, k, a);
      } else {
        PieceOwns(rs - met.Keys, k, page, a);
      }
    }
  }

  /** Closing the listed parts leaves every page with the protection of the region that it now belongs to. */
  lemma AfterRemoval(rs: Table, rms: seq<Removal>, pieces: Table, lo: int, hi: int, n: Arena, page: int, h: Pages,
                     h': Pages)
    requires page > 0 && Valid(rs, true) && HostInv(rs, n, page, h) && lo < hi && AllMeet(Met(rs, lo, hi), lo, hi)
    requires Lists(rms, Met(rs, lo, hi), lo, hi) && WholePages(rms, page)
             && Leaves(Met(rs, lo, hi), pieces, lo, hi, true)
    requires Cleared(rms, h, h') && (rs - Met(rs, lo, hi).Keys).Keys !! pieces.Keys
    ensures HostInv((rs - Met(rs, lo, hi).Keys) + pieces, n, page, h')
  {
    var kept := rs - Met(rs, lo, hi).Keys;
    var all := kept + pieces;
    forall q | q in pieces
      ensures Aligned(q, page) && n.base <= q && PageEnd(all[q], page) <= ArenaEnd(n)
      ensures forall a :: q <= a < PageEnd(all[q], page) ==> h'(a) == all[q].info.prot
    {
      var k := PiecePages(rs, rms, pieces, lo, hi, n, page, q);
      forall a | q <= a < PageEnd(all[q], page) ensures h'(a) == all[q].info.prot {
        if InSome(rms, a) { RemovalOwner(rs, rms, lo, hi, n, page, k, a); }
      }
    }
    forall k | k in kept ensures forall a :: k <= a < PageEnd(all[k], page) ==> h'(a) == all[k].info.prot {
      forall a | k <= a < PageEnd(all[k], page) ensures h'(a) == all[k].info.prot {
        if InSome(rms, a) { RemovalOwner(rs, rms, lo, hi, n, page, k, a); }
      }
    }
    forall a | !Owned(all, page, a) ensures h'(a) == NO_ACCESS {
      GoneIsClosed(rs, rms, pieces, lo, hi, n, page, h, h', a);
    }
  }

  // ---- Mapping, closing and repainting one region -------------------------

  lemma AfterAdding(rs: Table, r: Region, n: Arena, page: int, h: Pages)
    requires page > 0 && Valid(rs, true) && HostInv(rs, n, page, h) && Fit(r, true) && Free(rs, r.info.base, End(r))
    requires Aligned(r.info.base, page) && n.base <= r.info.base && PageEnd(r, page) <= ArenaEnd(n)
             && r.info.base !in rs
    ensures HostInv(rs[r.info.base := r], n, page, Paint(h, r.info.base, PageEnd(r, page), r.info.prot))
  {
    var b, e := r.info.base, PageEnd(r, page);
    var h', all := Paint(h, b, e, r.info.prot), rs[b := r];
    forall k, a | k in rs && k <= a < PageEnd(rs[k], page) ensures h'(a) == rs[k].info.prot {
      assert !Meets(rs[k], b, End(r));
      if k < b { CeilLeast(End(rs[k]), b, page); } else { CeilLeast(End(r), k, page); }
    }
    forall a | !Owned(all, page, a) ensures h'(a) == NO_ACCESS {
      assert b in all && all[b] == r;
      assert rs + map[b := r] == all;
      OwnedUnion(rs, map[b := r], page, a);
    }
  }

  lemma AfterDropping(rs: Table, k: int, n: Arena, page: int, h: Pages)
    requires page > 0 && Valid(rs, true) && HostInv(rs, n, page, h) && k in rs
    ensures HostInv(rs - {k}, n, page, Paint(h, k, PageEnd(rs[k], page), NO_ACCESS))
  {
    var h', left := Paint(h, k, PageEnd(rs[k], page), NO_ACCESS), rs - {k};
    forall j, a | j in left && j <= a < PageEnd(left[j], page) ensures h'(a) == left[j].info.prot {
      if j < k { PagesApart(rs, n, page, j, k); } else { PagesApart(rs, n, page, k, j); }
    }
    forall a | k > a || a >= PageEnd(rs[k], page) ensures Owned(rs, page, a) ==> Owned(left, page, a) {
      if Owned(rs, page, a) {
        var j :| j in rs && j <= a < PageEnd(rs[j], page);
        PieceOwns(left, j, page, a);
      }
    }
  }

  lemma AfterRepainting(rs: Table, k: int, p: Prot, n: Arena, page: int, h: Pages)
    requires page > 0 && Valid(rs, true) && HostInv(rs, n, page, h) && k in rs
    ensures var r := rs[k].(info := rs[k].info.(prot := p));
            HostInv(rs[k := r], n, page, Paint(h, k, PageEnd(rs[k], page), p))
  {
    var r := rs[k].(info := rs[k].info.(prot := p));
    var h', all := Paint(h, k, PageEnd(rs[k], page), p), rs[k := r];
    forall j, a | j in all && j <= a < PageEnd(all[j], page) ensures h'(a) == all[j].info.prot {
      if j < k { PagesApart(rs, n, page, j, k); } else if k < j { PagesApart(rs, n, page, k, j); }
    }
    forall a ensures Owned(rs, page, a) ==> Owned(all, page, a) {
      if Owned(rs, page, a) {
        var j :| j in rs && j <= a < PageEnd(rs[j], page);
        PieceOwns(all, j, page, a);
      }
    }
  }

  lemma RestShape(r: Region, lo: int, hi: int, q: int)
    requires Fit(r, true) && Meets(r, lo, hi) && lo < hi && q in Rest(r, lo, hi, true)
    ensures var p := Rest(r, lo, hi, true)[q];
            p.info.prot == r.info.prot
            && ((q == r.info.base && q < lo && End(p) == lo) || (q == hi && r.info.base < hi && End(p) == End(r)))
  {
  }

  lemma ReprotectShape(r: Region, lo: int, hi: int, p: Prot, q: int)
    requires Fit(r, true) && r.info.base <= lo < hi <= End(r) && q in Reprotect(r, lo, hi, p, true)
    ensures var t := Reprotect(r, lo, hi, p, true)[q];
            || (q == lo && End(t) == hi && t.info.prot == p)
            || (t.info.prot == r.info.prot
                && ((q == r.info.base && q < lo && End(t) == lo) || (q == hi && hi < End(r) && End(t) == End(r))))
  {
    PieceFits(r, lo, hi, p, true);
    if q != lo { RestShape(r, lo, hi, q); }
  }

  lemma ReprotectCovers(r: Region, lo: int, hi: int, p: Prot, page: int, a: int)
    requires page > 0 && Fit(r, true) && r.info.base <= lo < hi <= End(r) && r.info.base <= a < PageEnd(r, page)
    requires Aligned(lo, page) && Aligned(hi, page)
    ensures Owned(Reprotect(r, lo, hi, p, true), page, a)
  {
    var t := Reprotect(r, lo, hi, p, true);
    if a < lo {
      PieceFits(r, r.info.base, lo, r.info.prot, true);
      PieceOwns(t, r.info.base, page, a);
    } else if a < hi {
      PieceFits(r, lo, hi, p, true);
      PieceOwns(t, lo, page, a);
    } else {
      PieceFits(r, hi, End(r), r.info.prot, true);
      PieceOwns(t, hi, page, a);
    }
  }

  lemma AfterReprotecting(rs: Table, k: int, lo: int, hi: int, p: Prot, n: Arena, page: int, h: Pages)
    requires page > 0 && Valid(rs, true) && HostInv(rs, n, page, h) && k in rs && k <= lo < hi <= End(rs[k])
    requires Aligned(lo, page) && Aligned(hi, page)
    requires (rs - {k}).Keys !! Reprotect(rs[k], lo, hi, p, true).Keys
    ensures HostInv((rs - {k}) + Reprotect(rs[k], lo, hi, p, true), n, page, Paint(h, lo, hi, p))
  {
    var kept, t, h' := rs - {k}, Reprotect(rs[k], lo, hi, p, true), Paint(h, lo, hi, p);
    var all := kept + t;
    PagesCover(rs[k], page);
    forall q | q in t
      ensures Aligned(q, page) && n.base <= q && PageEnd(all[q], page) <= ArenaEnd(n)
      ensures forall a :: q <= a < PageEnd(all[q], page) ==> h'(a) == all[q].info.prot
    {
      ReprotectShape(rs[k], lo, hi, p, q);
    }
    forall j, a | j in kept && j <= a < PageEnd(all[j], page) ensures h'(a) == all[j].info.prot {
      if j < k { PagesApart(rs, n, page, j, k); } else { PagesApart(rs, n, page, k, j); }
    }
    forall a ensures Owned(rs, page, a) ==> Owned(all, page, a) {
      OwnedUnion(kept, t, page, a);
      if Owned(rs, page, a) {
        var j :| j in rs && j <= a < PageEnd(rs[j], page);
        if j == k { ReprotectCovers(rs[k], lo, hi, p, page, a); } else { PieceOwns(kept, j, page, a); }
      }
    }
    forall a | !Owned(all, page, a) ensures h'(a) == NO_ACCESS {
      if lo <= a < hi { PieceOwns(rs, k, page, a); }
    }
  }
}
