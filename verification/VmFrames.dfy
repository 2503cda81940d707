/** What a mapping call leaves alone: everything outside the range it works on and the word it reports to the guest. */
module VmFrames {
  import opened Base
  import opened Regions
  import opened AddressSpace

  /** Address `a` is mapped and carries `c`, bytes aside. */
  ghost predicate Shows(rs: Table, a: int, c: Cell) { exists d :: Has(rs, a, d) && d.(byte := None) == c }

  /** Outside [lo, hi) the same addresses are mapped and carry the same, bytes aside. */
  ghost predicate Outside(before: Table, after: Table, lo: int, hi: int) {
    forall a, c :: !(lo <= a < hi) ==> (Shows(after, a, c) <==> Shows(before, a, c))
  }

  lemma OutsideTwice(x: Table, y: Table, z: Table, lo: int, hi: int)
    requires Outside(x, y, lo, hi) && Outside(y, z, lo, hi)
    ensures Outside(x, z, lo, hi)
  {
  }

  lemma OutsideRemoved(before: Table, after: Table, lo: int, hi: int)
    requires Removed(before, after, lo, hi)
    ensures Outside(before, after, lo, hi)
  {
    forall a, c | !(lo <= a < hi) ensures Shows(after, a, c) <==> Shows(before, a, c) {
      if d :| Has(after, a, d) && d.(byte := None) == c { assert Has(before, a, d); }
      if d :| Has(before, a, d) && d.(byte := None) == c { assert Has(after, a, d); }
    }
  }

  /** The cell of a region, bytes aside, is settled by its info. */
  lemma InfoShows(r: Region, r': Region, a: int, c: Cell)
    requires r'.info == r.info && CellAt(r, a, c)
    ensures CellAt(r', a, CellOf(r', a)) && CellOf(r', a).(byte := None) == c.(byte := None)
  {
  }

  lemma ShowsThrough(rs: Table, rs': Table, k: int, a: int, c: Cell)
    requires k in rs && k in rs' && rs'[k].info == rs[k].info && CellAt(rs[k], a, c)
    ensures Shows(rs', a, c.(byte := None))
  {
    InfoShows(rs[k], rs'[k], a, c);
    assert Has(rs', a, CellOf(rs'[k], a));
  }

  /** Tables that agree on the regions outside [lo, hi). */
  ghost predicate SameBeyond(before: Table, after: Table, lo: int, hi: int) {
    && (forall k, a :: k in before && Covers(before[k], a) && !(lo <= a < hi) ==>
                         k in after && after[k].info == before[k].info)
    && (forall k, a :: k in after && Covers(after[k], a) && !(lo <= a < hi) ==>
                         k in before && after[k].info == before[k].info)
  }

  lemma OutsideBeyond(before: Table, after: Table, lo: int, hi: int)
    requires SameBeyond(before, after, lo, hi)
    ensures Outside(before, after, lo, hi)
  {
    forall a, c | !(lo <= a < hi) ensures Shows(after, a, c) <==> Shows(before, a, c) {
      if d :| Has(after, a, d) && d.(byte := None) == c {
        var k :| k in after && CellAt(after[k], a, d);
        ShowsThrough(after, before, k, a, d);
      }
      if d :| Has(before, a, d) && d.(byte := None) == c {
        var k :| k in before && CellAt(before[k], a, d);
        ShowsThrough(before, after, k, a, d);
      }
    }
  }

  lemma OutsideInfos(before: Table, after: Table, lo: int, hi: int)
    requires SameInfos(before, after)
    ensures Outside(before, after, lo, hi)
  {
    OutsideBeyond(before, after, lo, hi);
  }

  /** One region comes or goes. */
  lemma OutsideOne(less: Table, more: Table, k: int, lo: int, hi: int)
    requires k !in less && more.Keys == less.Keys + {k} && (forall j :: j in less ==> more[j].info == less[j].info)
    requires lo <= more[k].info.base && End(more[k]) <= hi
    ensures Outside(less, more, lo, hi) && Outside(more, less, lo, hi)
  {
    OutsideBeyond(less, more, lo, hi);
  }

  // ---- Contents outside a range and a result word ------------------------

  /** `a` lies in neither of two ranges. */
  predicate Off(a: int, lo: int, hi: int, slo: int, shi: int) { !(lo <= a < hi) && !(slo <= a < shi) }

  ghost predicate BytesKept(b0: int -> Byte, b1: int -> Byte, lo: int, hi: int, slo: int, shi: int) {
    forall a :: Off(a, lo, hi, slo, shi) ==> b1(a) == b0(a)
  }

  /** The regions, with their storage, and the bytes of the arena. */
  datatype Picture = Picture(regions: Table, bytes: int -> Byte)

  /** Off two ranges, a working range and a result word, every address keeps its cell and its byte. */
  ghost predicate Frame(x: Picture, y: Picture, lo: int, hi: int, slo: int, shi: int) {
    && (forall a, c :: Off(a, lo, hi, slo, shi) ==> (Has(y.regions, a, c) <==> Has(x.regions, a, c)))
    && BytesKept(x.bytes, y.bytes, lo, hi, slo, shi)
  }

  lemma FrameTwice(x: Picture, y: Picture, z: Picture, lo: int, hi: int, slo: int, shi: int)
    requires Frame(x, y, lo, hi, slo, shi) && Frame(y, z, lo, hi, slo, shi)
    ensures Frame(x, z, lo, hi, slo, shi)
  {
  }

  lemma FrameWider(x: Picture, y: Picture, lo: int, hi: int, slo: int, shi: int)
    requires Frame(x, y, lo, hi, 0, 0) || Frame(x, y, 0, 0, slo, shi)
    ensures Frame(x, y, lo, hi, slo, shi)
  {
  }

  /** Work on a range, then on the result word. */
  lemma FrameWord(x: Picture, y: Picture, z: Picture, lo: int, hi: int, slo: int, shi: int)
    requires Frame(x, y, lo, hi, 0, 0) && Frame(y, z, 0, 0, slo, shi)
    ensures Frame(x, z, lo, hi, slo, shi)
  {
    FrameWider(x, y, lo, hi, slo, shi);
    FrameWider(y, z, lo, hi, slo, shi);
    FrameTwice(x, y, z, lo, hi, slo, shi);
  }

  lemma FrameOutside(x: Picture, y: Picture, lo: int, hi: int)
    requires Frame(x, y, lo, hi, 0, 0)
    ensures Outside(x.regions, y.regions, lo, hi)
  {
    forall a, c | !(lo <= a < hi) ensures Shows(y.regions, a, c) <==> Shows(x.regions, a, c) {
      assert Off(a, lo, hi, 0, 0);
      if d :| Has(y.regions, a, d) && d.(byte := None) == c { assert Has(x.regions, a, d); }
      if d :| Has(x.regions, a, d) && d.(byte := None) == c { assert Has(y.regions, a, d); }
    }
  }

  lemma FrameSwap(x: Picture, y: Picture, slo: int, shi: int)
    requires Frame(x, y, 0, 0, slo, shi)
    ensures Frame(x, y, slo, shi, 0, 0)
  {
  }

  lemma FrameRemoved(x: Picture, y: Picture, lo: int, hi: int, slo: int, shi: int)
    requires Removed(x.regions, y.regions, lo, hi) && y.bytes == x.bytes
    ensures Frame(x, y, lo, hi, slo, shi)
  {
  }

  /** One region comes; every other region is as it was. */
  lemma FrameOne(x: Picture, y: Picture, k: int, lo: int, hi: int, slo: int, shi: int)
    requires k !in x.regions && y.regions.Keys == x.regions.Keys + {k}
    requires forall j :: j in x.regions ==> y.regions[j] == x.regions[j]
    requires lo <= y.regions[k].info.base && End(y.regions[k]) <= hi && BytesKept(x.bytes, y.bytes, lo, hi, slo, shi)
    ensures Frame(x, y, lo, hi, slo, shi)
  {
    var less, more := x.regions, y.regions;
    forall a, c | Off(a, lo, hi, slo, shi) ensures Has(more, a, c) <==> Has(less, a, c) {
      if Has(more, a, c) {
        var j :| j in more && CellAt(more[j], a, c);
        assert j in less && CellAt(less[j], a, c);
      }
      if Has(less, a, c) {
        var j :| j in less && CellAt(less[j], a, c);
        assert CellAt(more[j], a, c);
      }
    }
  }

  lemma WrittenOff(r0: Table, r1: Table, native: bool, at: int, data: seq<Byte>, a: int, c: Cell)
    requires Valid(r1, native) && Written(r0, r1, at, data) && !(at <= a < at + |data|)
    ensures Has(r1, a, c) <==> Has(r0, a, c)
  {
    if Has(r1, a, c) {
      var k :| k in r1 && CellAt(r1[k], a, c);
      var d := CellOf(r0[k], a);
      assert CellAt(r0[k], a, d) && Has(r0, a, d);
      OneCell(r1, native, a, c, d);
    }
  }

  /** `y` is `x` after a write of `data` at `at`. */
  ghost predicate WroteTo(x: Picture, y: Picture, native: bool, at: int, data: seq<Byte>) {
    if data == [] then y == x
    else if native then y.regions == x.regions && y.bytes == Filled(x.bytes, at, data)
    else Written(x.regions, y.regions, at, data) && y.bytes == x.bytes
  }

  /** A write touches nothing but its own range. */
  lemma FrameWrite(x: Picture, y: Picture, native: bool, at: int, data: seq<Byte>)
    requires Valid(y.regions, native) && WroteTo(x, y, native, at, data)
    ensures Frame(x, y, 0, 0, at, at + |data|)
  {
    if data != [] && !native {
      forall a, c | Off(a, 0, 0, at, at + |data|) ensures Has(y.regions, a, c) <==> Has(x.regions, a, c) {
        WrittenOff(x.regions, y.regions, native, at, data, a, c);
      }
    }
  }

  /** The bytes of every mapped address are as they were. */
  ghost predicate KeptWhereMapped(rs: Table, b0: int -> Byte, b1: int -> Byte) {
    forall a :: Mapped(rs, a) ==> b1(a) == b0(a)
  }

  lemma FreeIsUnmapped(rs: Table, b0: int -> Byte, b1: int -> Byte, lo: int, hi: int)
    requires Free(rs, lo, hi) && BytesKept(b0, b1, lo, hi, 0, 0)
    ensures KeptWhereMapped(rs, b0, b1)
  {
    forall a | Mapped(rs, a) ensures b1(a) == b0(a) {
      var k :| k in rs && Covers(rs[k], a);
      assert !Meets(rs[k], lo, hi);
      assert Off(a, lo, hi, 0, 0);
    }
  }

  lemma RemovedIsUnmapped(rs: Table, rs': Table, native: bool, b0: int -> Byte, b1: int -> Byte, lo: int, hi: int)
    requires Valid(rs', native) && Removed(rs, rs', lo, hi) && BytesKept(b0, b1, lo, hi, 0, 0)
    ensures KeptWhereMapped(rs', b0, b1)
  {
    forall a | Mapped(rs', a) ensures b1(a) == b0(a) {
      var k :| k in rs' && Covers(rs'[k], a);
      assert Has(rs', a, CellOf(rs'[k], a));
      assert Off(a, lo, hi, 0, 0);
    }
  }

  /** What one write stored, the next leaves where it does not reach. */
  lemma FrameKeepsByte(x: Picture, y: Picture, native: bool, slo: int, shi: int, a: int, b: Byte)
    requires Frame(x, y, 0, 0, slo, shi) && ByteAt(x.regions, native, x.bytes, a, b) && !(slo <= a < shi)
    ensures ByteAt(y.regions, native, y.bytes, a, b)
  {
    assert Off(a, 0, 0, slo, shi);
  }

  /** The addresses from `a` on hold `data`, but for those that a later write to [slo, shi) has reached. */
  ghost predicate StoredBut(rs: Table, native: bool, bytes: int -> Byte, a: int, data: seq<Byte>, slo: int, shi: int) {
    forall i :: 0 <= i < |data| && !(slo <= a + i < shi) ==> ByteAt(rs, native, bytes, a + i, data[i])
  }

  lemma FrameKeepsStored(x: Picture, y: Picture, native: bool, slo: int, shi: int, a: int, data: seq<Byte>)
    requires Frame(x, y, 0, 0, slo, shi) && Stored(x.regions, native, x.bytes, a, data)
    ensures StoredBut(y.regions, native, y.bytes, a, data, slo, shi)
  {
    forall i | 0 <= i < |data| && !(slo <= a + i < shi) ensures ByteAt(y.regions, native, y.bytes, a + i, data[i]) {
      FrameKeepsByte(x, y, native, slo, shi, a + i, data[i]);
    }
  }

  // ---- Contents ---------------------------------------------------------

  /** `data`, padded with zeros to `n` bytes. */
  function Padded(data: seq<Byte>, n: nat): seq<Byte>
    requires |data| <= n
  {
    data + seq(n - |data|, _ => 0)
  }

  lemma ZeroThenData(r0: Table, r1: Table, native: bool, b0: int -> Byte, b1: int -> Byte, at: int, n: nat,
                     data: seq<Byte>)
    requires |data| <= n && Stored(r0, native, b0, at, seq(n, _ => 0)) && Stored(r1, native, b1, at, data)
    requires if data == [] then r1 == r0 && b1 == b0 else if native then b1 == Filled(b0, at, data)
                                                          else Written(r0, r1, at, data)
    ensures Stored(r1, native, b1, at, Padded(data, n))
  {
    var zeros: seq<Byte> := seq(n, _ => 0);
    forall i | 0 <= i < n ensures ByteAt(r1, native, b1, at + i, Padded(data, n)[i]) {
      if i < |data| {
        assert ByteAt(r1, native, b1, at + i, data[i]);
      } else {
        assert ByteAt(r0, native, b0, at + i, zeros[i]);
        if !native && data != [] { WrittenKeeps(r0, r1, b0, b1, at, data, at + i, 0); }
      }
    }
  }

  /** A new protection leaves the bytes. */
  lemma RepaintKeeps(rs: Table, rs': Table, native: bool, bytes: int -> Byte, k: int, p: Prot, at: int, data: seq<Byte>)
    requires k in rs && rs' == rs[k := rs[k].(info := rs[k].info.(prot := p))] && Stored(rs, native, bytes, at, data)
    ensures Stored(rs', native, bytes, at, data)
  {
    forall i | 0 <= i < |data| ensures ByteAt(rs', native, bytes, at + i, data[i]) {
      assert ByteAt(rs, native, bytes, at + i, data[i]);
      if !native {
        var c :| Has(rs, at + i, c) && c.byte == Some(data[i]);
        var j :| j in rs && CellAt(rs[j], at + i, c);
        assert CellAt(rs'[j], at + i, CellOf(rs'[j], at + i)) && CellOf(rs'[j], at + i).byte == c.byte;
        assert Has(rs', at + i, CellOf(rs'[j], at + i));
      }
    }
  }
}
