/** What relocation guarantees over repeated links and over every history of registrations and relocations. */
module LinkHistory {
  import opened Base
  import opened SymbolRegistry
  import opened Linker
  import X86

  // ---- Relinking a module -----------------------------------------------

  /** No two relocations patch overlapping words. */
  ghost predicate DistinctPatches(m: Image, rs: seq<Reloc>) {
    forall i, j :: 0 <= i < j < |rs| ==> Apart(PatchAddress(m, rs[i]), PatchAddress(m, rs[j]))
  }

  lemma {:induction false} ApplyAllElsewhere(l: Link, s: Symbols, m: Image, rs: seq<Reloc>, p: int)
    requires GoodLink(l) && forall i :: 0 <= i < |rs| ==> Apart(p, PatchAddress(m, rs[i]))
    ensures SameAt(l, ApplyAll(l, s, m, rs).link, p)
    decreases |rs|
  {
    if rs != [] {
      ApplyElsewhere(l, s, m, rs[0], p);
      ApplyAllElsewhere(Apply(l, s, m, rs[0]).link, s, m, rs[1..], p);
    }
  }

  /** Linking a module again, with the registry as it was, changes nothing and gives the same report. */
  lemma {:induction false} RelinkIdempotent(l: Link, s: Symbols, m: Image, rs: seq<Reloc>)
    requires GoodLink(l) && DistinctPatches(m, rs) && ApplyAll(l, s, m, rs).report.Some?
    ensures ApplyAll(ApplyAll(l, s, m, rs).link, s, m, rs) == ApplyAll(l, s, m, rs)
    decreases |rs|
  {
    if rs != [] {
      var first := Apply(l, s, m, rs[0]);
      var done := ApplyAll(first.link, s, m, rs[1..]);
      RelinkIdempotent(first.link, s, m, rs[1..]);
      AppliedIsSettled(l, s, m, rs[0]);
      ApplyAllElsewhere(first.link, s, m, rs[1..], PatchAddress(m, rs[0]));
      SettledWhereSame(first.link, done.link, s, m, rs[0], first.report.value);
      assert Apply(done.link, s, m, rs[0]) == Outcome(done.link, first.report);
      assert ApplyAll(done.link, s, m, rs) == Outcome(done.link, Some(Sum(first.report.value, done.report.value)));
    }
  }

  /** After a link that did not throw, every relocation is settled. */
  lemma {:induction false} LinkedIsSettled(l: Link, s: Symbols, m: Image, rs: seq<Reloc>, k: nat)
    requires GoodLink(l) && DistinctPatches(m, rs) && ApplyAll(l, s, m, rs).report.Some? && k < |rs|
    ensures exists report :: Settled(ApplyAll(l, s, m, rs).link, s, m, rs[k], report)
    decreases |rs|
  {
    var first := Apply(l, s, m, rs[0]);
    if k > 0 {
      LinkedIsSettled(first.link, s, m, rs[1..], k - 1);
    } else {
      AppliedIsSettled(l, s, m, rs[0]);
      ApplyAllElsewhere(first.link, s, m, rs[1..], PatchAddress(m, rs[0]));
      SettledWhereSame(first.link, ApplyAll(l, s, m, rs).link, s, m, rs[0], first.report.value);
    }
  }

  /** So a symbol that resolves is in its word, and is where calls through an earlier thunk go; a callable import
      that does not has its own thunk there, unless the table is full or the thunk was issued for another key. */
  lemma LinkedWord(l: Link, s: Symbols, m: Image, rs: seq<Reloc>, k: nat)
    requires GoodLink(l) && DistinctPatches(m, rs) && ApplyAll(l, s, m, rs).report.Some? && k < |rs|
    ensures var l', p, w := ApplyAll(l, s, m, rs).link, PatchAddress(m, rs[k]), Wants(s, m, rs[k]);
            && (w.Resolved? && w.value.Some? ==>
                  && HoldsWord(l'.memory, p, w.value.value)
                  && (w.value.value != 0 && Find(l', p).Some? ==> l'.targets[Find(l', p).value] == w.value.value))
            && (w.Import? && w.thunked.Some? ==>
                  match Find(l', p)
                  case Some(i) => l'.records[i].key == w.thunked.value ==> IsThunk(l', p, i)
                  case None => |l'.records| == l'.capacity)
  {
    LinkedIsSettled(l, s, m, rs, k);
    var l', p, w := ApplyAll(l, s, m, rs).link, PatchAddress(m, rs[k]), Wants(s, m, rs[k]);
    var report :| Settled(l', s, m, rs[k], report);
    if w.Resolved? && w.value.Some? {
      assert BindPatch(l', p, w.value.value) == l';
      StoredHolds(l'.memory, p, w.value.value);
    }
    if w.Import? && w.thunked.Some? && Find(l', p).Some? && l'.records[Find(l', p).value].key == w.thunked.value {
      ThunkFits(l', Find(l', p).value);
      StoredHolds(l'.memory, p, Thunk(l', Find(l', p).value));
    }
  }

  /** The word at `p` holds the address of thunk `i`. */
  ghost predicate IsThunk(l: Link, p: int, i: nat) {
    0 <= Thunk(l, i) <= U64_MAX && HoldsWord(l.memory, p, Thunk(l, i))
  }

  predicate Missing(w: Want) { w.Import? || (w.Plain? && w.missing) }

  function MissingIn(s: Symbols, m: Image, rs: seq<Reloc>): seq<Reloc>
    decreases |rs|
  {
    if rs == [] then [] else (if Missing(Wants(s, m, rs[0])) then [rs[0]] else []) + MissingIn(s, m, rs[1..])
  }

  function RelocsOf(us: seq<Unresolved>): seq<Reloc> { seq(|us|, i requires 0 <= i < |us| => us[i].reloc) }

  function Thunked(us: seq<Unresolved>): nat {
    if us == [] then 0 else (if us[0].thunk != 0 then 1 else 0) + Thunked(us[1..])
  }

  lemma {:induction false} ThunkedAdds(a: seq<Unresolved>, b: seq<Unresolved>)
    ensures Thunked(a + b) == Thunked(a) + Thunked(b)
  {
    if a == [] { assert a + b == b; } else { ThunkedAdds(a[1..], b); assert (a + b)[1..] == a[1..] + b; }
  }

  lemma SumIsExact(a: Report, b: Report)
    requires a.thunks == Thunked(a.unresolved) && b.thunks == Thunked(b.unresolved)
    ensures RelocsOf(Sum(a, b).unresolved) == RelocsOf(a.unresolved) + RelocsOf(b.unresolved)
    ensures Sum(a, b).thunks == Thunked(Sum(a, b).unresolved)
  {
    ThunkedAdds(a.unresolved, b.unresolved);
  }

  lemma ReportOne(l: Link, s: Symbols, m: Image, r: Reloc)
    requires GoodLink(l) && Apply(l, s, m, r).report.Some?
    ensures var report := Apply(l, s, m, r).report.value;
            RelocsOf(report.unresolved) == (if Missing(Wants(s, m, r)) then [r] else [])
            && report.thunks == Thunked(report.unresolved)
  {
  }

  /** The report lists exactly the relocations that found nothing, in order, and counts those given a thunk. */
  lemma {:induction false} ReportIsExact(l: Link, s: Symbols, m: Image, rs: seq<Reloc>)
    requires GoodLink(l) && ApplyAll(l, s, m, rs).report.Some?
    ensures var report := ApplyAll(l, s, m, rs).report.value;
            RelocsOf(report.unresolved) == MissingIn(s, m, rs) && report.thunks == Thunked(report.unresolved)
    decreases |rs|
  {
    if rs != [] {
      var first := Apply(l, s, m, rs[0]);
      var rest := ApplyAll(first.link, s, m, rs[1..]);
      ReportOne(l, s, m, rs[0]);
      ReportIsExact(first.link, s, m, rs[1..]);
      SumIsExact(first.report.value, rest.report.value);
    }
  }

  // ---- Histories --------------------------------------------------------

  /** Registering a symbol, or one relocation of one of the loaded modules. */
  datatype Action = Register(key: Key, binding: Binding) | Relocate(image: nat, index: nat)

  /** `values` records, for every word, the last value that resolution wrote into it. */
  datatype System = System(symbols: Symbols, link: Link, values: map<int, U64>)

  predicate IsReloc(images: seq<Image>, i: nat, j: nat) { i < |images| && j < |images[i].relocs| }

  function PatchOf(images: seq<Image>, i: nat, j: nat): int
    requires IsReloc(images, i, j)
  {
    PatchAddress(images[i], images[i].relocs[j])
  }

  function Noted(values: map<int, U64>, l: Link, w: Want, p: int): map<int, U64> {
    if w.Resolved? && w.value.Some? && p in l.memory.words then values[p := w.value.value] else values
  }

  function Step(images: seq<Image>, y: System, a: Action): (y': System)
    requires GoodLink(y.link)
    ensures GoodLink(y'.link) && Fixed(y.link, y'.link)
  {
    match a
    case Register(k, b) => y.(symbols := Registered(y.symbols, k, b))
    case Relocate(i, j) =>
      if !IsReloc(images, i, j) then y
      else
        var m, r := images[i], images[i].relocs[j];
        System(y.symbols, Apply(y.link, y.symbols, m, r).link,
               Noted(y.values, y.link, Wants(y.symbols, m, r), PatchAddress(m, r)))
  }

  function Run(images: seq<Image>, y: System, actions: seq<Action>): (y': System)
    requires GoodLink(y.link)
    ensures GoodLink(y'.link) && Fixed(y.link, y'.link)
    decreases |actions|
  {
    if actions == [] then y else Run(images, Step(images, y, actions[0]), actions[1..])
  }

  /** No two relocations of the loaded modules patch overlapping words. */
  ghost predicate Distinct(images: seq<Image>) {
    forall i: nat, j: nat, i': nat, j': nat ::
      IsReloc(images, i, j) && IsReloc(images, i', j') && (i, j) != (i', j') ==>
        Apart(PatchOf(images, i, j), PatchOf(images, i', j'))
  }

  /** A word never resolved is untouched, or holds its thunk, which has no target. A resolved word holds the value,
      and its thunk, if one was issued before, forwards to that value (unless it is zero). */
  ghost predicate WordOk(initial: Memory, y: System, p: int)
    requires GoodLink(y.link)
  {
    match Find(y.link, p)
    case None => if p in y.values then HoldsWord(y.link.memory, p, y.values[p]) else SameWord(initial, y.link.memory, p)
    case Some(i) =>
      if p in y.values
      then HoldsWord(y.link.memory, p, y.values[p]) && (y.values[p] != 0 ==> y.link.targets[i] == y.values[p])
      else y.link.targets[i] == 0 && IsThunk(y.link, p, i)
  }

  /** What holds of a relocation that names a symbol: its word is as above, and once resolved it resolves for good. */
  ghost predicate RelocOk(initial: Memory, y: System, m: Image, r: Reloc)
    requires GoodLink(y.link)
  {
    var p := PatchAddress(m, r);
    Symbolic(r) ==>
      && (p in y.values ==> Wants(y.symbols, m, r).Resolved?)
      && (p in y.link.memory.words ==> WordOk(initial, y, p))
  }

  ghost predicate Linked(initial: Memory, images: seq<Image>, y: System) {
    && GoodLink(y.link) && y.link.memory.words == initial.words
    && forall i: nat, j: nat :: IsReloc(images, i, j) ==> RelocOk(initial, y, images[i], images[i].relocs[j])
  }

  /** A registration never undoes a resolution. */
  lemma WantsStays(s: Symbols, k: Key, b: Binding, m: Image, r: Reloc)
    requires Wants(s, m, r).Resolved?
    ensures Wants(Registered(s, k, b), m, r).Resolved?
  {
    var y := m.symbols[r.symbol];
    if y.key.Some? && y.key.value in s { StillResolves(s, k, b, y.key.value); }
  }

  lemma OwnResolved(initial: Memory, y: System, m: Image, r: Reloc, images: seq<Image>, i: nat, j: nat, v: U64)
    requires IsReloc(images, i, j) && m == images[i] && r == m.relocs[j] && GoodLink(y.link)
    requires Wants(y.symbols, m, r) == Resolved(Some(v)) && PatchAddress(m, r) in y.link.memory.words
    ensures RelocOk(initial, Step(images, y, Relocate(i, j)), m, r)
  {
    StoreHolds(BindPatch(y.link, PatchAddress(m, r), v).memory, PatchAddress(m, r), v);
  }

  lemma OwnImport(initial: Memory, y: System, m: Image, r: Reloc, images: seq<Image>, i: nat, j: nat, key: Key)
    requires IsReloc(images, i, j) && m == images[i] && r == m.relocs[j] && GoodLink(y.link) && Symbolic(r)
    requires Wants(y.symbols, m, r) == Import(Some(key)) && PatchAddress(m, r) in y.link.memory.words
             && RelocOk(initial, y, m, r)
    ensures RelocOk(initial, Step(images, y, Relocate(i, j)), m, r)
  {
    var p := PatchAddress(m, r);
    var (l', thunk) := GetOrCreate(y.link, p, key);
    if Find(y.link, p).None? && |y.link.records| < y.link.capacity { FindMore(y.link.records, Record(p, key), p, 0); }
    if thunk.Some? { StoreHolds(l'.memory, p, thunk.value); }
  }

  lemma OwnReloc(initial: Memory, y: System, m: Image, r: Reloc, images: seq<Image>, i: nat, j: nat)
    requires IsReloc(images, i, j) && m == images[i] && r == m.relocs[j] && GoodLink(y.link)
    requires y.link.memory.words == initial.words && RelocOk(initial, y, m, r)
    ensures RelocOk(initial, Step(images, y, Relocate(i, j)), m, r)
  {
    var w := Wants(y.symbols, m, r);
    if Symbolic(r) && PatchAddress(m, r) in y.link.memory.words {
      if w.Resolved? && w.value.Some? { OwnResolved(initial, y, m, r, images, i, j, w.value.value); }
      if w.Import? && w.thunked.Some? { OwnImport(initial, y, m, r, images, i, j, w.thunked.value); }
    }
  }

  lemma OtherReloc(initial: Memory, y: System, images: seq<Image>, i: nat, j: nat, m: Image, r: Reloc)
    requires IsReloc(images, i, j) && Apart(PatchAddress(m, r), PatchOf(images, i, j)) && GoodLink(y.link)
    requires y.link.memory.words == initial.words && RelocOk(initial, y, m, r)
    ensures RelocOk(initial, Step(images, y, Relocate(i, j)), m, r)
  {
    var p, y' := PatchAddress(m, r), Step(images, y, Relocate(i, j));
    ApplyElsewhere(y.link, y.symbols, images[i], images[i].relocs[j], p);
    if p in y.values {
      SameHolds(y.link.memory, y'.link.memory, p, y.values[p]);
    } else if Find(y.link, p).Some? {
      ThunkFits(y.link, Find(y.link, p).value);
      SameHolds(y.link.memory, y'.link.memory, p, Thunk(y.link, Find(y.link, p).value));
    }
  }

  lemma StepKeepsLinked(initial: Memory, images: seq<Image>, y: System, a: Action)
    requires Linked(initial, images, y) && Distinct(images)
    ensures Linked(initial, images, Step(images, y, a))
  {
    var y' := Step(images, y, a);
    forall i: nat, j: nat | IsReloc(images, i, j) ensures RelocOk(initial, y', images[i], images[i].relocs[j]) {
      var m, r := images[i], images[i].relocs[j];
      assert RelocOk(initial, y, m, r);
      match a
      case Register(k, b) => if Wants(y.symbols, m, r).Resolved? { WantsStays(y.symbols, k, b, m, r); }
      case Relocate(i', j') =>
        if IsReloc(images, i', j') {
          if (i, j) == (i', j') { OwnReloc(initial, y, m, r, images, i, j); }
          else {
            assert Apart(PatchOf(images, i, j), PatchOf(images, i', j'));
            OtherReloc(initial, y, images, i', j', m, r);
          }
        }
    }
  }

  /** Every history keeps the words linked. */
  lemma {:induction false} HistoriesStayLinked(initial: Memory, images: seq<Image>, y: System, actions: seq<Action>)
    requires Linked(initial, images, y) && Distinct(images)
    ensures Linked(initial, images, Run(images, y, actions))
    decreases |actions|
  {
    if actions != [] {
      StepKeepsLinked(initial, images, y, actions[0]);
      HistoriesStayLinked(initial, images, Step(images, y, actions[0]), actions[1..]);
    }
  }

  lemma StartsLinked(s: Symbols, l: Link, images: seq<Image>)
    requires GoodLink(l) && l.records == []
    ensures Linked(l.memory, images, System(s, l, map[]))
  {
    assert forall p :: Find(l, p) == None;
  }

  /** Along every history of registrations and relocations, from any registry and an empty table of thunks, every word
      of a symbol relocation is untouched, or holds its own unbound thunk, or holds the resolved value to which its
      thunk forwards. */
  lemma WordsStayLinked(s: Symbols, l: Link, images: seq<Image>, actions: seq<Action>, i: nat, j: nat)
    requires GoodLink(l) && l.records == [] && Distinct(images) && IsReloc(images, i, j)
             && Symbolic(images[i].relocs[j])
    requires PatchOf(images, i, j) in l.memory.words
    ensures WordOk(l.memory, Run(images, System(s, l, map[]), actions), PatchOf(images, i, j))
  {
    var y := System(s, l, map[]);
    StartsLinked(s, l, images);
    HistoriesStayLinked(l.memory, images, y, actions);
    assert RelocOk(l.memory, Run(images, y, actions), images[i], images[i].relocs[j]);
  }

  /** Relinking a module is such a history: its relocations in order, up to the first that throws. */
  lemma {:induction false} RelinkIsHistory(images: seq<Image>, y: System, i: nat, from: nat)
    returns (actions: seq<Action>)
    requires GoodLink(y.link) && i < |images| && from <= |images[i].relocs|
    ensures Run(images, y, actions).link == ApplyAll(y.link, y.symbols, images[i], images[i].relocs[from..]).link
    ensures Run(images, y, actions).symbols == y.symbols
    decreases |images[i].relocs| - from
  {
    var rs := images[i].relocs;
    actions := [];
    if from < |rs| {
      assert rs[from..][0] == rs[from] && rs[from..][1..] == rs[from + 1..];
      var a := Relocate(i, from);
      var y' := Step(images, y, a);
      var rest := [];
      if Apply(y.link, y.symbols, images[i], rs[from]).report.Some? {
        rest := RelinkIsHistory(images, y', i, from + 1);
      }
      actions := [a] + rest;
      assert actions[1..] == rest;
    }
  }

  // ---- Overlapping words ------------------------------------------------

  /** The byte that a word `v` at `p` puts at `k`. */
  function ByteIn(p: int, v: U64, k: int): Byte
    requires p <= k < p + 8
  {
    X86.ByteOf(v, k - p)
  }

  /** Two words agree wherever they overlap. */
  ghost predicate Agree(p: int, v: U64, q: int, w: U64) {
    forall k :: p <= k < p + 8 && q <= k < q + 8 ==> ByteIn(p, v, k) == ByteIn(q, w, k)
  }

  lemma ResolvedWrites(l: Link, s: Symbols, m: Image, r: Reloc, v: U64)
    requires GoodLink(l) && Wants(s, m, r) == Resolved(Some(v)) && PatchAddress(m, r) in l.memory.words
    ensures Apply(l, s, m, r).report.Some?
            && Apply(l, s, m, r).link.memory == StoreWord(l.memory, PatchAddress(m, r), v)
  {
  }

  /** After one relocation and then another, the first word holds its value if and only if the two agree where they
      overlap. So distinct patch addresses are not enough: the words must be 8 apart, or the values happen to agree. */
  lemma OverlapExactly(l: Link, s: Symbols, m: Image, r: Reloc, r': Reloc, v: U64, v': U64)
    requires GoodLink(l) && Wants(s, m, r) == Resolved(Some(v)) && Wants(s, m, r') == Resolved(Some(v'))
    requires PatchAddress(m, r) in l.memory.words && PatchAddress(m, r') in l.memory.words
    ensures HoldsWord(ApplyAll(l, s, m, [r, r']).link.memory, PatchAddress(m, r), v)
            <==> Agree(PatchAddress(m, r), v, PatchAddress(m, r'), v')
  {
    var p, q, l1 := PatchAddress(m, r), PatchAddress(m, r'), Apply(l, s, m, r).link;
    ResolvedWrites(l, s, m, r, v);
    ResolvedWrites(l1, s, m, r', v');
    assert [r, r'][1..] == [r'] && [r'][1..] == [];
    assert ApplyAll(l1, s, m, [r']).link == Apply(l1, s, m, r').link;
    StoreHolds(l.memory, p, v);
    StoreHolds(l1.memory, q, v');
    OverlapStored(l1.memory, p, v, q, v');
  }

  lemma OverlapStored(m: Memory, p: int, v: U64, q: int, w: U64)
    requires HoldsWord(m, p, v) && GoodMemory(m) && q in m.words
    ensures HoldsWord(StoreWord(m, q, w), p, v) <==> Agree(p, v, q, w)
  {
    var m' := StoreWord(m, q, w);
    if Agree(p, v, q, w) {
      forall k | p <= k < p + 8 ensures k in m'.bytes && m'.bytes[k] == X86.ByteOf(v, k - p) {
        assert k in m.bytes && (q <= k < q + 8 ==> ByteIn(p, v, k) == ByteIn(q, w, k));
      }
    } else if HoldsWord(m', p, v) {
      forall k | p <= k < p + 8 && q <= k < q + 8 ensures ByteIn(p, v, k) == ByteIn(q, w, k) { assert k in m'.bytes; }
    }
  }

  const FIRST := Reloc(0, GlobDat, 0, 0, false)
  const SECOND := Reloc(4, GlobDat, 0, 0, false)

  /** A module at 16 whose symbol stands at its base, with relocations at offsets 0 and 4 that name it. */
  const OVERLAPPING := Image(16, 0, [Symbol("start", Local, 0, true, None)], [FIRST, SECOND])

  const BYTES := {16, 17, 18, 19, 20, 21, 22, 23, 24, 25, 26, 27}

  /** An empty thunk table, and 12 bytes of guest memory with both words in them. */
  function Twelve(): Link {
    Link(4096, 0, [], [], Memory(map k: int | k in BYTES :: 0, {16, 20}))
  }

  lemma TwelveGood()
    ensures GoodLink(Twelve())
  {
    var m := Twelve().memory;
    forall p, k | p in m.words && p <= k < p + 8 ensures k in m.bytes { assert k in BYTES; }
  }

  lemma BothResolve(s: Symbols)
    ensures Wants(s, OVERLAPPING, FIRST) == Wants(s, OVERLAPPING, SECOND) == Resolved(Some(16))
  {
  }

  lemma BothDisagree()
    ensures !Agree(16, 16, 20, 16)
  {
    assert ByteIn(16, 16, 20) == X86.ByteOf(16, 4) == 0 && ByteIn(20, 16, 20) == X86.ByteOf(16, 0) == 16;
  }

  lemma SpoiltWord(l: Link, s: Symbols, m: Image, r: Reloc, r': Reloc)
    requires GoodLink(l) && Wants(s, m, r) == Wants(s, m, r') == Resolved(Some(16))
    requires PatchAddress(m, r) == 16 && PatchAddress(m, r') == 20 && {16, 20} <= l.memory.words
    ensures !HoldsWord(ApplyAll(l, s, m, [r, r']).link.memory, 16, 16)
  {
    BothDisagree();
    OverlapExactly(l, s, m, r, r', 16, 16);
  }

  /** Both relocations resolve, to 16, and are applied, but the second spoils the word of the first. */
  lemma OverlapHappens(s: Symbols)
    ensures GoodLink(Twelve()) && OVERLAPPING.relocs == [FIRST, SECOND] && PatchAddress(OVERLAPPING, FIRST) == 16
    ensures Wants(s, OVERLAPPING, FIRST) == Wants(s, OVERLAPPING, SECOND) == Resolved(Some(16))
    ensures !HoldsWord(ApplyAll(Twelve(), s, OVERLAPPING, [FIRST, SECOND]).link.memory, 16, 16)
  {
    TwelveGood();
    BothResolve(s);
    SpoiltWord(Twelve(), s, OVERLAPPING, FIRST, SECOND);
  }
}
