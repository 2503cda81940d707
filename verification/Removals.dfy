/** Preparing an unmapping: each region that meets the range is replaced by what is left of it. */
module Removals {
  import opened Base
  import opened Regions
  import opened HostPages

  /** The regions below `cur` that meet the range. */
  ghost function MetBelow(rs: Table, lo: int, hi: int, cur: int): Table {
    map k | k in rs && Meets(rs[k], lo, hi) && k < cur :: rs[k]
  }

  /** The regions below `cur` have been dealt with. */
  ghost predicate Prepared(rs: Table, lo: int, hi: int, native: bool, cur: int, rms: seq<Removal>, pieces: Table)
    requires Valid(rs, native)
  {
    var met := MetBelow(rs, lo, hi, cur);
    Leaves(met, pieces, lo, hi, native) && Lists(rms, met, lo, hi) && Ascending(rms, cur)
  }

  /** The removals are in address order and belong to regions below `cur`. */
  ghost predicate Ascending(rms: seq<Removal>, cur: int) {
    && (forall i :: 0 <= i < |rms| ==> rms[i].key < cur)
    && forall i, j :: 0 <= i < j < |rms| ==> rms[i].hi <= rms[j].lo
  }

  function RemovalOf(r: Region, lo: int, hi: int): Removal {
    Removal(r.info.base, if r.info.base < lo then lo else r.info.base, if End(r) < hi then End(r) else hi, r.info.prot)
  }

  lemma NothingMet(rs: Table, lo: int, hi: int, cur: int, cur': int)
    requires forall k :: k in rs && Meets(rs[k], lo, hi) ==> (k < cur <==> k < cur')
    ensures MetBelow(rs, lo, hi, cur) == MetBelow(rs, lo, hi, cur')
  {
  }

  lemma ListsMore(rms: seq<Removal>, met: Table, k: int, r: Region, lo: int, hi: int)
    requires Lists(rms, met, lo, hi) && k !in met && r.info.base == k && Meets(r, lo, hi)
    ensures Lists(rms + [RemovalOf(r, lo, hi)], met[k := r], lo, hi)
  {
    var all, met' := rms + [RemovalOf(r, lo, hi)], met[k := r];
    forall i | 0 <= i < |all| ensures ListsOne(all[i], met', lo, hi) {
      if i < |rms| { assert ListsOne(rms[i], met, lo, hi); }
    }
    forall j | j in met' ensures exists i :: 0 <= i < |all| && all[i].key == j {
      if j in met {
        var i :| 0 <= i < |rms| && rms[i].key == j;
        assert all[i].key == j;
      } else {
        assert all[|rms|].key == j;
      }
    }
  }

  /** No earlier region reaches past `hi`, and the new one brings its own parts. */
  lemma LeavesMore(met: Table, pieces: Table, k: int, r: Region, lo: int, hi: int, native: bool)
    requires Sound(met, native) && AllMeet(met, lo, hi) && Leaves(met, pieces, lo, hi, native) && lo < hi
    requires Fit(r, native) && r.info.base == k && Meets(r, lo, hi)
             && forall j :: j in met ==> j < k && End(met[j]) <= k
    ensures Sound(met[k := r], native) && AllMeet(met[k := r], lo, hi)
    ensures Leaves(met[k := r], pieces + Rest(r, lo, hi, native), lo, hi, native)
  {
    var met', all := met[k := r], pieces + Rest(r, lo, hi, native);
    assert !ReachesPast(met, hi);
    assert hi < End(r) ==> ReachesPast(met', hi) by { if hi < End(r) { assert k in met' && met'[k] == r; } }
  }

  lemma AscendingMore(rs: Table, rms: seq<Removal>, lo: int, hi: int, native: bool, k: int)
    requires Valid(rs, native) && k in rs && Meets(rs[k], lo, hi) && Lists(rms, MetBelow(rs, lo, hi, k), lo, hi)
             && Ascending(rms, k)
    ensures Ascending(rms + [RemovalOf(rs[k], lo, hi)], k + 1)
  {
    forall i | 0 <= i < |rms| ensures rms[i].hi <= k && rms[i].hi <= RemovalOf(rs[k], lo, hi).lo {
      assert ListsOne(rms[i], MetBelow(rs, lo, hi, k), lo, hi);
    }
  }

  /** One more region, the next in order that meets the range. */
  lemma PrepareStep(rs: Table, lo: int, hi: int, native: bool, k: int, rms: seq<Removal>, pieces: Table)
    requires Valid(rs, native) && lo < hi && k in rs && Meets(rs[k], lo, hi)
             && Prepared(rs, lo, hi, native, k, rms, pieces)
    ensures Prepared(rs, lo, hi, native, k + 1, rms + [RemovalOf(rs[k], lo, hi)], pieces + Rest(rs[k], lo, hi, native))
  {
    var met, r := MetBelow(rs, lo, hi, k), rs[k];
    assert MetBelow(rs, lo, hi, k + 1) == met[k := r];
    LeavesMore(met, pieces, k, r, lo, hi, native);
    ListsMore(rms, met, k, r, lo, hi);
    AscendingMore(rs, rms, lo, hi, native, k);
  }

  lemma PrepareMove(rs: Table, lo: int, hi: int, native: bool, cur: int, cur': int, rms: seq<Removal>, pieces: Table)
    requires Valid(rs, native) && cur <= cur' && Prepared(rs, lo, hi, native, cur, rms, pieces)
    requires forall k :: k in rs && Meets(rs[k], lo, hi) ==> (k < cur <==> k < cur')
    ensures Prepared(rs, lo, hi, native, cur', rms, pieces)
  {
    NothingMet(rs, lo, hi, cur, cur');
  }

  lemma PrepareNone(rs: Table, lo: int, hi: int, native: bool, cur: int)
    requires Valid(rs, native) && forall k :: k in rs && Meets(rs[k], lo, hi) ==> cur <= k
    ensures Prepared(rs, lo, hi, native, cur, [], map[])
  {
    assert MetBelow(rs, lo, hi, cur) == map[];
  }

  // ---- The same, for a list of region keys ------------------------------

  ghost predicate KeysIn(rs: Table, ks: seq<int>) { forall i :: 0 <= i < |ks| ==> ks[i] in rs }

  function RemovalsOf(rs: Table, ks: seq<int>, lo: int, hi: int): seq<Removal>
    requires KeysIn(rs, ks)
  {
    if ks == [] then []
    else
      var k: int := ks[|ks| - 1];
      RemovalsOf(rs, ks[..|ks| - 1], lo, hi) + [RemovalOf(rs[k], lo, hi)]
  }

  function PiecesOf(rs: Table, ks: seq<int>, lo: int, hi: int, native: bool): Table
    requires Valid(rs, native) && KeysIn(rs, ks)
  {
    if ks == [] then map[]
    else
      var k: int := ks[|ks| - 1];
      PiecesOf(rs, ks[..|ks| - 1], lo, hi, native) + Rest(rs[k], lo, hi, native)
  }

  /** `ks` are the regions below `cur` that meet the range, in order. */
  ghost predicate MetKeys(rs: Table, lo: int, hi: int, cur: int, ks: seq<int>) {
    && (forall i :: 0 <= i < |ks| ==> ks[i] in rs && Meets(rs[ks[i]], lo, hi) && ks[i] < cur)
    && (forall i, j :: 0 <= i < j < |ks| ==> ks[i] < ks[j])
    && (forall k :: k in rs && Meets(rs[k], lo, hi) && k < cur ==> k in ks)
  }

  lemma MetKeysLess(rs: Table, lo: int, hi: int, cur: int, ks: seq<int>)
    requires MetKeys(rs, lo, hi, cur, ks) && ks != []
    ensures MetKeys(rs, lo, hi, ks[|ks| - 1], ks[..|ks| - 1])
    ensures forall j :: j in rs && Meets(rs[j], lo, hi) && ks[|ks| - 1] < j ==> cur <= j
  {
    var k, rest := ks[|ks| - 1], ks[..|ks| - 1];
    forall j | j in rs && Meets(rs[j], lo, hi) && j < k ensures j in rest {
      assert j in ks;
    }
  }

  lemma {:induction false} PreparedByKeys(rs: Table, lo: int, hi: int, native: bool, cur: int, ks: seq<int>)
    requires Valid(rs, native) && lo < hi && MetKeys(rs, lo, hi, cur, ks)
    ensures Prepared(rs, lo, hi, native, cur, RemovalsOf(rs, ks, lo, hi), PiecesOf(rs, ks, lo, hi, native))
    decreases |ks|
  {
    if ks == [] {
      PrepareNone(rs, lo, hi, native, cur);
    } else {
      var k, rest := ks[|ks| - 1], ks[..|ks| - 1];
      MetKeysLess(rs, lo, hi, cur, ks);
      PreparedByKeys(rs, lo, hi, native, k, rest);
      PrepareStepTo(rs, lo, hi, native, k, cur, RemovalsOf(rs, rest, lo, hi), PiecesOf(rs, rest, lo, hi, native));
    }
  }

  lemma PrepareStepTo(rs: Table, lo: int, hi: int, native: bool, k: int, cur: int, rms: seq<Removal>, pieces: Table)
    requires Valid(rs, native) && lo < hi && k in rs && k < cur && Meets(rs[k], lo, hi)
             && Prepared(rs, lo, hi, native, k, rms, pieces)
    requires forall j :: j in rs && Meets(rs[j], lo, hi) && k < j ==> cur <= j
    ensures Prepared(rs, lo, hi, native, cur, rms + [RemovalOf(rs[k], lo, hi)], pieces + Rest(rs[k], lo, hi, native))
  {
    PrepareStep(rs, lo, hi, native, k, rms, pieces);
    PrepareMove(rs, lo, hi, native, k + 1, cur, rms + [RemovalOf(rs[k], lo, hi)], pieces + Rest(rs[k], lo, hi, native));
  }

  lemma MetKeysMore(rs: Table, lo: int, hi: int, cur: int, k: int, ks: seq<int>)
    requires MetKeys(rs, lo, hi, cur, ks) && k in rs && Meets(rs[k], lo, hi) && cur <= k
    requires forall j :: j in rs && Meets(rs[j], lo, hi) && j >= cur ==> k <= j
    ensures MetKeys(rs, lo, hi, k + 1, ks + [k])
  {
    var all := ks + [k];
    forall j | j in rs && Meets(rs[j], lo, hi) && j < k + 1 ensures j in all {
      if j < cur {
        assert j in ks;
      } else {
        assert all[|ks|] == j;
      }
    }
  }

  lemma MetKeysSame(rs: Table, lo: int, hi: int, cur: int, cur': int, ks: seq<int>)
    requires MetKeys(rs, lo, hi, cur, ks) && cur <= cur'
             && forall j :: j in rs && Meets(rs[j], lo, hi) && cur <= j ==> cur' <= j
    ensures MetKeys(rs, lo, hi, cur', ks)
  {
  }

  /** The region that reaches into the range from below comes first among those that meet it. */
  lemma FirstMet(rs: Table, native: bool, lo: int, hi: int, k: int)
    requires Valid(rs, native) && lo < hi && k in rs && Covers(rs[k], lo) && k < lo
    ensures Meets(rs[k], lo, hi) && forall j :: j in rs && Meets(rs[j], lo, hi) ==> j == k || lo <= j
  {
    forall j | j in rs && Meets(rs[j], lo, hi) && j < lo ensures j == k {
      assert Covers(rs[j], lo);
      OneOwner(rs, native, j, k, lo);
    }
  }

  /** Without one, every region that meets the range starts in it. */
  lemma NoneReachesIn(rs: Table, native: bool, lo: int, hi: int)
    requires Valid(rs, native) && lo < hi && forall k :: k in rs && Covers(rs[k], lo) ==> lo <= k
    ensures MetKeys(rs, lo, hi, lo, [])
  {
    forall j | j in rs && Meets(rs[j], lo, hi) ensures lo <= j {
      if j < lo { assert Covers(rs[j], lo); }
    }
  }

  lemma OneMoreKey(rs: Table, ks: seq<int>, k: int, lo: int, hi: int, native: bool)
    requires Valid(rs, native) && KeysIn(rs, ks) && k in rs
    ensures KeysIn(rs, ks + [k])
    ensures RemovalsOf(rs, ks + [k], lo, hi) == RemovalsOf(rs, ks, lo, hi) + [RemovalOf(rs[k], lo, hi)]
    ensures PiecesOf(rs, ks + [k], lo, hi, native) == PiecesOf(rs, ks, lo, hi, native) + Rest(rs[k], lo, hi, native)
  {
    assert (ks + [k])[..|ks|] == ks;
  }

  /** Once all are prepared, committing takes out exactly the range and keeps the table valid. */
  lemma PreparedCommits(rs: Table, lo: int, hi: int, native: bool, rms: seq<Removal>, pieces: Table)
    requires Valid(rs, native) && lo < hi && Prepared(rs, lo, hi, native, hi, rms, pieces)
    ensures var met := Met(rs, lo, hi);
            && Sound(met, native) && AllMeet(met, lo, hi) && Leaves(met, pieces, lo, hi, native)
            && Lists(rms, met, lo, hi)
            && (rs - met.Keys).Keys !! pieces.Keys && Valid((rs - met.Keys) + pieces, native)
            && Removed(rs, (rs - met.Keys) + pieces, lo, hi)
  {
    var met := Met(rs, lo, hi);
    assert MetBelow(rs, lo, hi, hi) == met;
    MetFacts(rs, lo, hi, native);
    RemovedValid(rs, pieces, lo, hi, native);
    LeavesRemoved(met, pieces, lo, hi, native);
    RemovedWhole(rs, met, pieces, lo, hi);
  }
}
