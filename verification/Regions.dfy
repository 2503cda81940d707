/** Guest regions as an interval map, and the flat per-address map that it stands for. */
module Regions {
  import opened Base

  datatype Kind = Generic | Anonymous | FileBacked | Stack | Reserved | Flexible | Direct
  datatype Prot = Prot(read: bool, write: bool, exec: bool)

  const NO_ACCESS := Prot(false, false, false)
  const READ_WRITE := Prot(true, true, false)

  datatype Info = Info(base: U64, size: U64, prot: Prot, name: string, offset: U64, memoryType: int, kind: Kind,
                       committed: bool, aux: int)

  /** `storage` holds the region's bytes in a buffered address space and is empty in a native one. */
  datatype Region = Region(info: Info, storage: seq<Byte>)

  type Table = map<int, Region>

  function End(r: Region): int { r.info.base + r.info.size }

  predicate Covers(r: Region, a: int) { r.info.base <= a < End(r) }

  predicate Meets(r: Region, lo: int, hi: int) { r.info.base < hi && lo < End(r) }

  /** Non-empty, within the address space, exactly sized to storage. */
  predicate Fit(r: Region, native: bool) {
    r.info.size > 0 && End(r) <= U64_MAX && |r.storage| == (if native then 0 else r.info.size)
  }

  /** Keyed by base. */
  ghost predicate Sound(rs: Table, native: bool) {
    forall k :: k in rs ==> rs[k].info.base == k && Fit(rs[k], native)
  }

  ghost predicate Disjoint(rs: Table) {
    forall j, k :: j in rs && k in rs && j < k ==> End(rs[j]) <= k
  }

  ghost predicate Valid(rs: Table, native: bool) { Sound(rs, native) && Disjoint(rs) }

  // ---- The flat map -----------------------------------------------------

  /** All that an address carries. `offset` is its own physical or file offset. */
  datatype Cell = Cell(prot: Prot, name: string, offset: U64, memoryType: int, kind: Kind, committed: bool, aux: int,
                       byte: Option<Byte>)

  /** 64-bit addition. */
  function Add64(a: U64, b: U64): U64 { if a + b <= U64_MAX then a + b else a + b - TWO64 }

  predicate Backed(kind: Kind) { kind == Direct || kind == FileBacked }

  function OffsetAt(info: Info, a: int): U64
    requires info.base <= a < TWO64
  {
    if Backed(info.kind) then Add64(info.offset, a - info.base) else info.offset
  }

  function CellOf(r: Region, a: int): Cell
    requires Covers(r, a) && End(r) <= U64_MAX
  {
    Cell(r.info.prot, r.info.name, OffsetAt(r.info, a), r.info.memoryType, r.info.kind, r.info.committed, r.info.aux,
         if a - r.info.base < |r.storage| then Some(r.storage[a - r.info.base]) else None)
  }

  ghost predicate CellAt(r: Region, a: int, c: Cell) {
    Covers(r, a) && End(r) <= U64_MAX && c == CellOf(r, a)
  }

  /** Address `a` is mapped and carries `c`. */
  ghost predicate Has(rs: Table, a: int, c: Cell) {
    exists k :: k in rs && CellAt(rs[k], a, c)
  }

  ghost predicate Mapped(rs: Table, a: int) { exists k :: k in rs && Covers(rs[k], a) }

  lemma OneOwner(rs: Table, native: bool, j: int, k: int, a: int)
    requires Valid(rs, native) && j in rs && k in rs && Covers(rs[j], a) && Covers(rs[k], a)
    ensures j == k
  {
  }

  /** The flat map is a function of the address. */
  lemma OneCell(rs: Table, native: bool, a: int, c: Cell, d: Cell)
    requires Valid(rs, native) && Has(rs, a, c) && Has(rs, a, d)
    ensures c == d
  {
    var j :| j in rs && CellAt(rs[j], a, c);
    var k :| k in rs && CellAt(rs[k], a, d);
    OneOwner(rs, native, j, k, a);
  }

  // ---- Pieces -----------------------------------------------------------

  /** The part of `r` on [lo, hi), with its own protection. */
  function Piece(r: Region, lo: int, hi: int, prot: Prot, native: bool): Region
    requires r.info.base <= lo <= hi <= End(r) <= U64_MAX && |r.storage| == (if native then 0 else r.info.size)
  {
    var skip := lo - r.info.base;
    Region(r.info.(base := lo, size := hi - lo, prot := prot,
                   offset := if Backed(r.info.kind) then Add64(r.info.offset, skip) else r.info.offset),
           if native then [] else r.storage[skip..hi - r.info.base])
  }

  lemma PieceCell(r: Region, lo: int, hi: int, prot: Prot, native: bool, a: int)
    requires r.info.base <= lo <= a < hi <= End(r) <= U64_MAX && |r.storage| == (if native then 0 else r.info.size)
    ensures CellOf(Piece(r, lo, hi, prot, native), a) == CellOf(r, a).(prot := prot)
  {
  }

  /** What is left of `r` once [lo, hi) is taken out of it. */
  function Rest(r: Region, lo: int, hi: int, native: bool): Table
    requires End(r) <= U64_MAX && |r.storage| == (if native then 0 else r.info.size)
  {
    (if r.info.base < lo <= End(r) then map[r.info.base := Piece(r, r.info.base, lo, r.info.prot, native)] else map[])
    + (if r.info.base <= hi < End(r) then map[hi := Piece(r, hi, End(r), r.info.prot, native)] else map[])
  }

  /** `after` is `before` with [lo, hi) taken out. */
  ghost predicate Removed(before: Table, after: Table, lo: int, hi: int) {
    forall a, c :: Has(after, a, c) <==> Has(before, a, c) && !(lo <= a < hi)
  }

  lemma HasUnion(x: Table, y: Table, a: int, c: Cell)
    requires x.Keys !! y.Keys
    ensures Has(x + y, a, c) <==> Has(x, a, c) || Has(y, a, c)
  {
    if Has(x, a, c) {
      var k :| k in x && CellAt(x[k], a, c);
      assert k in x + y && (x + y)[k] == x[k];
    }
    if Has(y, a, c) {
      var k :| k in y && CellAt(y[k], a, c);
      assert k in x + y && (x + y)[k] == y[k];
    }
  }

  lemma HasOne(k: int, r: Region, a: int, c: Cell)
    ensures Has(map[k := r], a, c) <==> CellAt(r, a, c)
  {
    assert k in map[k := r];
  }

  lemma RestCells(r: Region, lo: int, hi: int, native: bool, a: int, c: Cell)
    requires Fit(r, native) && Meets(r, lo, hi) && lo < hi
    ensures Has(Rest(r, lo, hi, native), a, c) <==> CellAt(r, a, c) && !(lo <= a < hi)
  {
    var x: Table := if r.info.base < lo then map[r.info.base := Piece(r, r.info.base, lo, r.info.prot, native)]
                    else map[];
    var y: Table := if hi < End(r) then map[hi := Piece(r, hi, End(r), r.info.prot, native)] else map[];
    assert Rest(r, lo, hi, native) == x + y;
    HasUnion(x, y, a, c);
    if r.info.base < lo {
      HasOne(r.info.base, Piece(r, r.info.base, lo, r.info.prot, native), a, c);
      if r.info.base <= a < lo { PieceCell(r, r.info.base, lo, r.info.prot, native, a); }
    }
    if hi < End(r) {
      HasOne(hi, Piece(r, hi, End(r), r.info.prot, native), a, c);
      if hi <= a < End(r) { PieceCell(r, hi, End(r), r.info.prot, native, a); }
    }
  }

  // ---- Taking a range out, region by region -----------------------------

  lemma PieceFits(r: Region, lo: int, hi: int, prot: Prot, native: bool)
    requires r.info.base <= lo < hi <= End(r) && Fit(r, native)
    ensures var p := Piece(r, lo, hi, prot, native);
            Fit(p, native) && p.info.base == lo && End(p) == hi && p.info.prot == prot
  {
  }

  lemma OneValid(k: int, r: Region, native: bool)
    requires Fit(r, native) && r.info.base == k
    ensures Valid(map[k := r], native)
  {
  }

  lemma UnionValid(x: Table, y: Table, mid: int, native: bool)
    requires Valid(x, native) && Valid(y, native)
    requires (forall k :: k in x ==> End(x[k]) <= mid) && (forall k :: k in y ==> mid <= k)
    ensures x.Keys !! y.Keys && Valid(x + y, native)
  {
    assert forall k :: k in x ==> k < End(x[k]);
  }

  lemma RestSound(r: Region, lo: int, hi: int, native: bool)
    requires Fit(r, native) && Meets(r, lo, hi) && lo < hi
    ensures Valid(Rest(r, lo, hi, native), native)
    ensures forall q :: q in Rest(r, lo, hi, native) ==> r.info.base <= q && End(Rest(r, lo, hi, native)[q]) <= End(r)
    ensures forall q :: q in Rest(r, lo, hi, native) ==> End(Rest(r, lo, hi, native)[q]) <= lo || hi <= q
  {
    var x: Table := if r.info.base < lo then map[r.info.base := Piece(r, r.info.base, lo, r.info.prot, native)]
                    else map[];
    var y: Table := if hi < End(r) then map[hi := Piece(r, hi, End(r), r.info.prot, native)] else map[];
    assert Rest(r, lo, hi, native) == x + y;
    if r.info.base < lo {
      PieceFits(r, r.info.base, lo, r.info.prot, native);
      OneValid(r.info.base, Piece(r, r.info.base, lo, r.info.prot, native), native);
    }
    if hi < End(r) {
      PieceFits(r, hi, End(r), r.info.prot, native);
      OneValid(hi, Piece(r, hi, End(r), r.info.prot, native), native);
    }
    UnionValid(x, y, hi, native);
  }

  ghost function Met(rs: Table, lo: int, hi: int): Table {
    map k | k in rs && Meets(rs[k], lo, hi) :: rs[k]
  }

  /** Replacing the regions that meet the range by what is left of them takes out exactly the range. */
  lemma RemovedWhole(rs: Table, met: Table, prepared: Table, lo: int, hi: int)
    requires met == Met(rs, lo, hi) && Removed(met, prepared, lo, hi) && (rs - met.Keys).Keys !! prepared.Keys
    ensures Removed(rs, (rs - met.Keys) + prepared, lo, hi)
  {
    var kept := rs - met.Keys;
    forall a, c ensures Has(kept + prepared, a, c) <==> Has(rs, a, c) && !(lo <= a < hi) {
      HasUnion(kept, prepared, a, c);
      HasUnion(kept, met, a, c);
      assert kept + met == rs;
    }
  }

  /** The parts of a region below and above the range. */
  function LeftPart(r: Region, lo: int, native: bool): Region
    requires Fit(r, native) && r.info.base < lo <= End(r)
  {
    Piece(r, r.info.base, lo, r.info.prot, native)
  }

  function RightPart(r: Region, hi: int, native: bool): Region
    requires Fit(r, native) && r.info.base <= hi < End(r)
  {
    Piece(r, hi, End(r), r.info.prot, native)
  }

  ghost predicate AllMeet(met: Table, lo: int, hi: int) { forall k :: k in met ==> Meets(met[k], lo, hi) }

  /** `pieces` are what is left of the regions that meet the range. */
  ghost predicate Leaves(met: Table, pieces: Table, lo: int, hi: int, native: bool)
    requires Sound(met, native) && AllMeet(met, lo, hi)
  {
    && (forall k :: k in met && k < lo ==> k in pieces && pieces[k] == LeftPart(met[k], lo, native))
    && (forall k :: k in met && hi < End(met[k]) ==> hi in pieces && pieces[hi] == RightPart(met[k], hi, native))
    && (forall q :: q in pieces ==> (q in met && q < lo) || (q == hi && ReachesPast(met, hi)))
  }

  ghost predicate ReachesPast(met: Table, hi: int) { exists k :: k in met && hi < End(met[k]) }

  lemma LeavesNoMore(met: Table, pieces: Table, lo: int, hi: int, native: bool, a: int, c: Cell)
    requires Sound(met, native) && AllMeet(met, lo, hi) && Leaves(met, pieces, lo, hi, native) && Has(pieces, a, c)
             && lo < hi
    ensures Has(met, a, c) && !(lo <= a < hi)
  {
    var q :| q in pieces && CellAt(pieces[q], a, c);
    if q in met && q < lo {
      PieceCell(met[q], q, lo, met[q].info.prot, native, a);
      assert CellAt(met[q], a, c);
    } else {
      var k :| k in met && hi < End(met[k]);
      PieceCell(met[k], hi, End(met[k]), met[k].info.prot, native, a);
      assert CellAt(met[k], a, c);
    }
  }

  lemma LeavesNoLess(met: Table, pieces: Table, lo: int, hi: int, native: bool, a: int, c: Cell)
    requires Sound(met, native) && AllMeet(met, lo, hi) && Leaves(met, pieces, lo, hi, native) && Has(met, a, c)
             && lo < hi && !(lo <= a < hi)
    ensures Has(pieces, a, c)
  {
    var k :| k in met && CellAt(met[k], a, c);
    if a < lo {
      PieceCell(met[k], k, lo, met[k].info.prot, native, a);
      assert CellAt(pieces[k], a, c);
    } else {
      PieceCell(met[k], hi, End(met[k]), met[k].info.prot, native, a);
      assert CellAt(pieces[hi], a, c);
    }
  }

  lemma LeavesRemoved(met: Table, pieces: Table, lo: int, hi: int, native: bool)
    requires Sound(met, native) && AllMeet(met, lo, hi) && Leaves(met, pieces, lo, hi, native) && lo < hi
    ensures Removed(met, pieces, lo, hi)
  {
    forall a, c ensures Has(pieces, a, c) <==> Has(met, a, c) && !(lo <= a < hi) {
      if Has(pieces, a, c) { LeavesNoMore(met, pieces, lo, hi, native, a, c); }
      if Has(met, a, c) && !(lo <= a < hi) { LeavesNoLess(met, pieces, lo, hi, native, a, c); }
    }
  }

  lemma PieceInside(met: Table, pieces: Table, lo: int, hi: int, native: bool, q: int) returns (k: int)
    requires Sound(met, native) && AllMeet(met, lo, hi) && Leaves(met, pieces, lo, hi, native) && q in pieces && lo < hi
    ensures k in met && k <= q < End(pieces[q]) <= End(met[k]) && Fit(pieces[q], native) && pieces[q].info.base == q
    ensures (End(pieces[q]) == lo && k == q) || (q == hi && End(pieces[q]) == End(met[k]))
    ensures pieces[q].info.prot == met[k].info.prot
  {
    if q in met && q < lo {
      k := q;
      PieceFits(met[k], k, lo, met[k].info.prot, native);
    } else {
      k :| k in met && hi < End(met[k]);
      PieceFits(met[k], hi, End(met[k]), met[k].info.prot, native);
    }
  }

  lemma MetFacts(rs: Table, lo: int, hi: int, native: bool)
    requires Valid(rs, native)
    ensures Valid(Met(rs, lo, hi), native) && AllMeet(Met(rs, lo, hi), lo, hi)
  {
  }

  /** A piece keeps clear of every region other than the one it was cut from. */
  lemma PieceClear(rs: Table, pieces: Table, lo: int, hi: int, native: bool, q: int, j: int)
    requires Valid(rs, native) && lo < hi && AllMeet(Met(rs, lo, hi), lo, hi)
             && Leaves(Met(rs, lo, hi), pieces, lo, hi, native)
    requires q in pieces && j in rs && j !in Met(rs, lo, hi)
    ensures End(rs[j]) <= q || End(pieces[q]) <= j
  {
    var k := PieceInside(Met(rs, lo, hi), pieces, lo, hi, native, q);
    assert k in rs && j != k;
  }

  lemma PiecesDisjoint(rs: Table, pieces: Table, lo: int, hi: int, native: bool)
    requires Valid(rs, native) && lo < hi && AllMeet(Met(rs, lo, hi), lo, hi)
             && Leaves(Met(rs, lo, hi), pieces, lo, hi, native)
    ensures Valid(pieces, native)
  {
    var met := Met(rs, lo, hi);
    forall q | q in pieces ensures pieces[q].info.base == q && Fit(pieces[q], native) {
      var k := PieceInside(met, pieces, lo, hi, native, q);
    }
    forall i, j | i in pieces && j in pieces && i < j ensures End(pieces[i]) <= j {
      var k := PieceInside(met, pieces, lo, hi, native, i);
      var l := PieceInside(met, pieces, lo, hi, native, j);
    }
  }

  lemma RemovedValid(rs: Table, pieces: Table, lo: int, hi: int, native: bool)
    requires Valid(rs, native) && lo < hi && AllMeet(Met(rs, lo, hi), lo, hi)
             && Leaves(Met(rs, lo, hi), pieces, lo, hi, native)
    ensures (rs - Met(rs, lo, hi).Keys).Keys !! pieces.Keys && Valid((rs - Met(rs, lo, hi).Keys) + pieces, native)
  {
    var kept := rs - Met(rs, lo, hi).Keys;
    PiecesDisjoint(rs, pieces, lo, hi, native);
    forall q, j | q in pieces && j in kept ensures End(kept[j]) <= q || End(pieces[q]) <= j {
      PieceClear(rs, pieces, lo, hi, native, q, j);
    }
    TwoValid(kept, pieces, native);
  }

  lemma TwoValid(x: Table, y: Table, native: bool)
    requires Valid(x, native) && Valid(y, native)
    requires forall q, j :: q in y && j in x ==> End(x[j]) <= q || End(y[q]) <= j
    ensures x.Keys !! y.Keys && Valid(x + y, native)
  {
    forall k | k in x ensures k !in y {
      assert k < End(x[k]);
    }
  }

  // ---- Changing the protection of part of one region ---------------------

  /** `after` is `before` with the protection of [lo, hi) set to `p`. */
  ghost predicate Reprotected(before: Table, after: Table, lo: int, hi: int, p: Prot) {
    && (forall a, c :: Has(before, a, c) ==> Has(after, a, if lo <= a < hi then c.(prot := p) else c))
    && (forall a :: Mapped(after, a) ==> Mapped(before, a))
  }

  function Reprotect(r: Region, lo: int, hi: int, p: Prot, native: bool): Table
    requires r.info.base <= lo < hi <= End(r) <= U64_MAX && |r.storage| == (if native then 0 else r.info.size)
  {
    Rest(r, lo, hi, native)[lo := Piece(r, lo, hi, p, native)]
  }

  lemma ReprotectCells(r: Region, lo: int, hi: int, p: Prot, native: bool, a: int, c: Cell)
    requires r.info.base <= lo < hi <= End(r) <= U64_MAX && |r.storage| == (if native then 0 else r.info.size)
    requires CellAt(r, a, c)
    ensures Has(Reprotect(r, lo, hi, p, native), a, if lo <= a < hi then c.(prot := p) else c)
  {
    var mid := Piece(r, lo, hi, p, native);
    var rest := Rest(r, lo, hi, native);
    assert lo !in rest;
    assert Reprotect(r, lo, hi, p, native) == rest + map[lo := mid];
    var d := if lo <= a < hi then c.(prot := p) else c;
    HasUnion(rest, map[lo := mid], a, d);
    HasOne(lo, mid, a, d);
    RestCells(r, lo, hi, native, a, d);
    if lo <= a < hi { PieceCell(r, lo, hi, p, native, a); }
  }

  lemma ReprotectSound(r: Region, lo: int, hi: int, p: Prot, native: bool)
    requires r.info.base <= lo < hi <= End(r) <= U64_MAX && |r.storage| == (if native then 0 else r.info.size)
    ensures Valid(Reprotect(r, lo, hi, p, native), native)
    ensures var t := Reprotect(r, lo, hi, p, native); forall q :: q in t ==> r.info.base <= q && End(t[q]) <= End(r)
  {
    var rest, mid := Rest(r, lo, hi, native), Piece(r, lo, hi, p, native);
    RestSound(r, lo, hi, native);
    PieceFits(r, lo, hi, p, native);
    PlacedValid(rest, lo, mid, native);
  }

  lemma PlacedValid(rs: Table, k: int, r: Region, native: bool)
    requires Valid(rs, native) && Fit(r, native) && r.info.base == k
    requires forall q :: q in rs ==> End(rs[q]) <= k || End(r) <= q
    ensures k !in rs && Valid(rs[k := r], native)
  {
    assert forall q :: q in rs ==> q < End(rs[q]);
  }

  /** Replacing one region by pieces of itself. */
  lemma ReplacedValid(rs: Table, k: int, pieces: Table, native: bool)
    requires Valid(rs, native) && k in rs && Valid(pieces, native)
    requires forall q :: q in pieces ==> k <= q && End(pieces[q]) <= End(rs[k])
    ensures (rs - {k}).Keys !! pieces.Keys && Valid((rs - {k}) + pieces, native)
  {
    var kept := rs - {k};
    forall q | q in pieces ensures q !in kept {
      assert q < End(pieces[q]);
    }
    var all := kept + pieces;
    forall i, j | i in all && j in all && i < j ensures End(all[i]) <= j {
    }
  }

  lemma ReprotectedWhole(rs: Table, k: int, lo: int, hi: int, p: Prot, native: bool)
    requires Valid(rs, native) && k in rs && k <= lo < hi <= End(rs[k])
    ensures var t := Reprotect(rs[k], lo, hi, p, native);
            (rs - {k}).Keys !! t.Keys && Valid((rs - {k}) + t, native) && Reprotected(rs, (rs - {k}) + t, lo, hi, p)
  {
    var kept, t := rs - {k}, Reprotect(rs[k], lo, hi, p, native);
    ReprotectSound(rs[k], lo, hi, p, native);
    ReplacedValid(rs, k, t, native);
    forall a, c | Has(rs, a, c) ensures Has(kept + t, a, if lo <= a < hi then c.(prot := p) else c) {
      var d := if lo <= a < hi then c.(prot := p) else c;
      HasUnion(kept, t, a, d);
      var j :| j in rs && CellAt(rs[j], a, c);
      if j == k {
        ReprotectCells(rs[k], lo, hi, p, native, a, c);
      } else {
        assert kept[j] == rs[j] && !(lo <= a < hi);
      }
    }
    forall a | Mapped(kept + t, a) ensures Mapped(rs, a) {
      var j :| j in kept + t && Covers((kept + t)[j], a);
      if j in t { assert Covers(rs[k], a); } else { assert Covers(rs[j], a); }
    }
  }

  // ---- Adding a region --------------------------------------------------

  ghost predicate Free(rs: Table, lo: int, hi: int) {
    forall k :: k in rs ==> !Meets(rs[k], lo, hi)
  }

  /** `after` is `before` with region `r` added in free space. */
  ghost predicate Added(before: Table, after: Table, r: Region) {
    forall a, c :: Has(after, a, c) <==> Has(before, a, c) || CellAt(r, a, c)
  }

  lemma AddedWhole(rs: Table, r: Region, native: bool)
    requires Valid(rs, native) && r.info.size > 0 && End(r) <= U64_MAX
             && |r.storage| == (if native then 0 else r.info.size)
    requires Free(rs, r.info.base, End(r))
    ensures r.info.base !in rs && Valid(rs[r.info.base := r], native) && Added(rs, rs[r.info.base := r], r)
  {
    var k := r.info.base;
    PlacedValid(rs, k, r, native);
    forall a, c ensures Has(rs[k := r], a, c) <==> Has(rs, a, c) || CellAt(r, a, c) {
      HasUnion(rs, map[k := r], a, c);
      HasOne(k, r, a, c);
      assert rs[k := r] == rs + map[k := r];
    }
  }

  /** Changing the protection of one whole region in place. */
  lemma RepaintedWhole(rs: Table, k: int, p: Prot, native: bool)
    requires Valid(rs, native) && k in rs
    ensures var t := rs[k := rs[k].(info := rs[k].info.(prot := p))];
            Valid(t, native) && Reprotected(rs, t, k, End(rs[k]), p)
  {
    var r := rs[k].(info := rs[k].info.(prot := p));
    var t := rs[k := r];
    forall a, c | Has(rs, a, c) ensures Has(t, a, if k <= a < End(rs[k]) then c.(prot := p) else c) {
      var j :| j in rs && CellAt(rs[j], a, c);
      if j == k { assert CellAt(t[k], a, c.(prot := p)); } else { assert CellAt(t[j], a, c); }
    }
    forall a | Mapped(t, a) ensures Mapped(rs, a) {
      var j :| j in t && Covers(t[j], a);
      assert Covers(rs[j], a);
    }
  }

  // ---- Changing bytes ---------------------------------------------------

  /** `after` is `before` with `data` written at `lo`; only a buffered space keeps bytes in its table. */
  ghost predicate Written(before: Table, after: Table, lo: int, data: seq<Byte>) {
    && (forall a, c :: Has(before, a, c) ==>
                         Has(after, a, if lo <= a < lo + |data| then c.(byte := Some(data[a - lo])) else c))
    && SameInfos(before, after)
  }

  ghost predicate SameInfos(before: Table, after: Table) {
    before.Keys == after.Keys && forall k :: k in before ==> after[k].info == before[k].info
  }

  function WriteTo(r: Region, lo: int, data: seq<Byte>): Region
    requires Fit(r, false) && r.info.base <= lo && lo + |data| <= End(r)
  {
    var at := lo - r.info.base;
    r.(storage := r.storage[..at] + data + r.storage[at + |data|..])
  }

  lemma WrittenWhole(rs: Table, k: int, lo: int, data: seq<Byte>)
    requires Valid(rs, false) && k in rs && k <= lo && lo + |data| <= End(rs[k])
    ensures var t := rs[k := WriteTo(rs[k], lo, data)]; Valid(t, false) && Written(rs, t, lo, data)
  {
    var r := WriteTo(rs[k], lo, data);
    var t := rs[k := r];
    forall a, c | Has(rs, a, c) ensures Has(t, a, if lo <= a < lo + |data| then c.(byte := Some(data[a - lo])) else c) {
      var j :| j in rs && CellAt(rs[j], a, c);
      if j == k {
        WriteCell(rs[k], lo, data, a);
        assert CellAt(t[k], a, CellOf(t[k], a));
      } else {
        assert CellAt(t[j], a, c);
      }
    }
  }

  lemma WriteCell(r: Region, lo: int, data: seq<Byte>, a: int)
    requires Fit(r, false) && r.info.base <= lo && lo + |data| <= End(r) && Covers(r, a)
    ensures CellOf(WriteTo(r, lo, data), a) == if lo <= a < lo + |data| then CellOf(r, a).(byte := Some(data[a - lo]))
                                               else CellOf(r, a)
  {
  }

  // ---- Listing ----------------------------------------------------------

  /** `s` lists the regions below `cur` in address order. */
  ghost predicate ListingBelow(rs: Table, cur: int, s: seq<Info>) {
    && (forall i :: 0 <= i < |s| ==> s[i].base in rs && rs[s[i].base].info == s[i] && s[i].base < cur)
    && (forall i, j :: 0 <= i < j < |s| ==> s[i].base < s[j].base)
    && (forall k :: k in rs && k < cur ==> exists i :: 0 <= i < |s| && s[i].base == k)
  }

  ghost predicate Listing(rs: Table, s: seq<Info>) { ListingBelow(rs, TWO64, s) }

  lemma ListingMore(rs: Table, cur: int, k: int, s: seq<Info>)
    requires ListingBelow(rs, cur, s) && k in rs && rs[k].info.base == k && cur <= k
             && forall j :: j in rs && j >= cur ==> k <= j
    ensures ListingBelow(rs, k + 1, s + [rs[k].info])
  {
    var t := s + [rs[k].info];
    forall j | j in rs && j < k + 1 ensures exists i :: 0 <= i < |t| && t[i].base == j {
      if j < cur {
        var i :| 0 <= i < |s| && s[i].base == j;
        assert t[i].base == j;
      } else {
        assert t[|s|].base == j;
      }
    }
  }
}
