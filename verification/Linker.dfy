/** Relocation with stable thunks for imports that resolve late. */
module Linker {
  import opened Base
  import opened SymbolRegistry
  import X86

  datatype Bind = Local | Global | Weak | OtherBind

  /** A dynamic symbol; `key` is its registry key, if its name and type give one. */
  datatype Symbol = Symbol(name: string, bind: Bind, value: U64, callable: bool, key: Option<Key>)

  datatype Kind = Relative | DtpMod64 | Absolute64 | GlobDat | JumpSlot | Unsupported

  type I64 = x: int | -0x8000_0000_0000_0000 <= x < 0x8000_0000_0000_0000

  datatype Reloc = Reloc(offset: U64, kind: Kind, symbol: nat, addend: I64, plt: bool)

  predicate Symbolic(r: Reloc) { r.kind == Absolute64 || r.kind == GlobDat || r.kind == JumpSlot }

  /** A module in memory; `relocs` are its dynamic relocations followed by those of its procedure linkage table. */
  datatype Image = Image(base: U64, tls: U64, symbols: seq<Symbol>, relocs: seq<Reloc>)

  // ---- 64-bit sums ------------------------------------------------------

  function AddUnsigned(a: U64, b: U64): (r: Option<U64>)
    ensures r == if a + b <= U64_MAX then Some(a + b) else None
  {
    if a > U64_MAX - b then None else Some(a + b)
  }

  /** Adding a signed 64-bit number: the exact sum, or nothing where it leaves the address space. */
  function AddSigned(a: U64, b: I64): (r: Option<U64>)
    ensures r == if 0 <= a + b <= U64_MAX then Some(a + b) else None
  {
    if b >= 0 then AddUnsigned(a, b)
    else
      var magnitude := -(b + 1) + 1;
      if a < magnitude then None else Some(a - magnitude)
  }

  // ---- Resolution -------------------------------------------------------

  function ResolveSymbol(s: Symbols, base: U64, y: Symbol): Option<U64> {
    if y.bind == Local || y.value != 0 then AddUnsigned(base, y.value)
    else if y.bind != Global && y.bind != Weak then None
    else match y.key
      case None => None
      case Some(k) => match Lookup(s, k) case None => None case Some(b) => Some(b.address)
  }

  /** What a relocation asks for: an error, a plain value, a symbol's value, or an import that is still missing. */
  datatype Want =
    | Bad
    | Plain(value: Option<U64>, missing: bool)
    | Resolved(value: Option<U64>)
    | Import(thunked: Option<Key>)

  function Wants(s: Symbols, m: Image, r: Reloc): Want {
    if m.base + r.offset > U64_MAX then Bad
    else match r.kind
      case Relative => Plain(AddSigned(m.base, r.addend), false)
      case DtpMod64 => if m.tls != 0 then Plain(Some(m.tls), false) else Plain(None, true)
      case Unsupported => Bad
      case _ =>
        if r.symbol >= |m.symbols| then Bad
        else
          var y := m.symbols[r.symbol];
          match ResolveSymbol(s, m.base, y)
          case Some(a) => Resolved(AddSigned(a, if r.kind == Absolute64 then r.addend else 0))
          case None => Import(if y.callable then y.key else None)
  }

  function PatchAddress(m: Image, r: Reloc): int { m.base + r.offset }

  // ---- Guest memory -----------------------------------------------------

  /** The mapped bytes, and the addresses at which a 64-bit word can be patched: all of it lies in one region. */
  datatype Memory = Memory(bytes: map<int, Byte>, words: set<int>)

  ghost predicate GoodMemory(m: Memory) { forall p, k :: p in m.words && p <= k < p + 8 ==> k in m.bytes }

  /** The 8 bytes at `p` are those of `v`. */
  ghost predicate HoldsWord(m: Memory, p: int, v: U64) {
    forall k :: p <= k < p + 8 ==> k in m.bytes && m.bytes[k] == X86.ByteOf(v, k - p)
  }

  function StoreWord(m: Memory, at: int, v: U64): Memory {
    m.(bytes := map k | k in m.bytes :: if at <= k < at + 8 then X86.ByteOf(v, k - at) else m.bytes[k])
  }

  /** The 8 bytes at `p` are the same in both. */
  ghost predicate SameWord(m: Memory, m': Memory, p: int) {
    && m'.words == m.words
    && forall k :: p <= k < p + 8 ==> if k in m.bytes then k in m'.bytes && m'.bytes[k] == m.bytes[k]
                                      else k !in m'.bytes
  }

  /** Words that do not overlap. */
  predicate Apart(p: int, q: int) { p + 8 <= q || q + 8 <= p }

  lemma StoreElsewhere(m: Memory, at: int, v: U64, p: int)
    requires Apart(p, at)
    ensures SameWord(m, StoreWord(m, at, v), p)
  {
  }

  /** Writing what a word holds changes nothing. */
  lemma StoreAgain(m: Memory, at: int, v: U64)
    requires HoldsWord(m, at, v)
    ensures StoreWord(m, at, v) == m
  {
    assert StoreWord(m, at, v).bytes == m.bytes;
  }

  lemma StoreHolds(m: Memory, at: int, v: U64)
    requires GoodMemory(m) && at in m.words
    ensures HoldsWord(StoreWord(m, at, v), at, v) && GoodMemory(StoreWord(m, at, v))
  {
  }

  lemma StoredHolds(m: Memory, at: int, v: U64)
    requires GoodMemory(m) && at in m.words && StoreWord(m, at, v) == m
    ensures HoldsWord(m, at, v)
  {
    StoreHolds(m, at, v);
  }

  lemma SameHolds(m: Memory, m': Memory, p: int, v: U64)
    requires SameWord(m, m', p)
    ensures HoldsWord(m, p, v) <==> HoldsWord(m', p, v)
  {
  }

  // ---- Late imports -----------------------------------------------------

  const THUNK_SIZE := 32

  datatype Record = Record(patch: int, key: Key)

  /** Thunk `i` stands at `base + 32 i` and jumps to `targets[i]` unless that is zero. `memory` is the guest's. */
  datatype Link = Link(base: int, capacity: nat, records: seq<Record>, targets: seq<U64>, memory: Memory)

  ghost predicate GoodLink(l: Link) {
    && |l.records| <= l.capacity == |l.targets| && 0 < l.base && l.base + l.capacity * THUNK_SIZE <= U64_MAX
    && (forall i, j :: 0 <= i < j < |l.records| ==> l.records[i].patch != l.records[j].patch)
    && (forall i :: |l.records| <= i < l.capacity ==> l.targets[i] == 0) && GoodMemory(l.memory)
  }

  function Thunk(l: Link, i: nat): int { l.base + i * THUNK_SIZE }

  function FindFrom(records: seq<Record>, patch: int, i: nat): (r: Option<nat>)
    requires i <= |records|
    ensures r.Some? ==> i <= r.value < |records| && records[r.value].patch == patch
    ensures r.None? ==> forall j :: i <= j < |records| ==> records[j].patch != patch
    decreases |records| - i
  {
    if i == |records| then None else if records[i].patch == patch then Some(i) else FindFrom(records, patch, i + 1)
  }

  /** find_by_patch. */
  function Find(l: Link, patch: int): Option<nat> { FindFrom(l.records, patch, 0) }

  /** get_or_create. */
  function GetOrCreate(l: Link, patch: int, key: Key): (r: (Link, Option<U64>))
    requires GoodLink(l)
    ensures GoodLink(r.0) && r.0.targets == l.targets && r.0.memory == l.memory
  {
    match Find(l, patch)
    case Some(i) =>
      ThunkFits(l, i);
      (l, if l.records[i].key == key then Some(Thunk(l, i)) else None)
    case None =>
      if |l.records| >= l.capacity then (l, None)
      else
        ThunkFits(l, |l.records|);
        (l.(records := l.records + [Record(patch, key)]), Some(Thunk(l, |l.records|)))
  }

  lemma ThunkFits(l: Link, i: nat)
    requires GoodLink(l) && i < l.capacity
    ensures 0 < Thunk(l, i) <= U64_MAX
  {
    assert i * THUNK_SIZE <= l.capacity * THUNK_SIZE;
  }

  /** bind_patch. */
  function BindPatch(l: Link, patch: int, target: U64): (r: Link)
    requires GoodLink(l)
    ensures GoodLink(r) && r.records == l.records && r.memory == l.memory
  {
    match Find(l, patch)
    case Some(i) => if target == 0 then l else l.(targets := l.targets[i := target])
    case None => l
  }

  datatype Unresolved = Unresolved(patch: int, reloc: Reloc, thunk: int)

  datatype Report = Report(applied: nat, thunks: nat, unresolved: seq<Unresolved>)

  const NOTHING := Report(0, 0, [])

  function Sum(a: Report, b: Report): Report {
    Report(a.applied + b.applied, a.thunks + b.thunks, a.unresolved + b.unresolved)
  }

  /** The link state that a relocation leaves, and its part of the report unless it throws. */
  datatype Outcome = Outcome(link: Link, report: Option<Report>)

  /** Patching a word of guest memory; where that is not possible the relocation throws. */
  function Patch(l: Link, at: int, v: U64, report: Report): (o: Outcome)
    requires GoodLink(l)
    ensures GoodLink(o.link)
  {
    if at in l.memory.words
    then StoreHolds(l.memory, at, v); Outcome(l.(memory := StoreWord(l.memory, at, v)), Some(report))
    else Outcome(l, None)
  }

  /** What one relocation does. */
  function Apply(l: Link, s: Symbols, m: Image, r: Reloc): (o: Outcome)
    requires GoodLink(l)
    ensures GoodLink(o.link) && Fixed(l, o.link)
  {
    var at := PatchAddress(m, r);
    match Wants(s, m, r)
    case Bad => Outcome(l, None)
    case Plain(v, missing) =>
      if v.None? then Outcome(l, Some(if missing then Report(0, 0, [Unresolved(at, r, 0)]) else NOTHING))
      else Patch(l, at, v.value, Report(1, 0, []))
    case Resolved(v) =>
      if v.None? then Outcome(l, Some(NOTHING)) else Patch(BindPatch(l, at, v.value), at, v.value, Report(1, 0, []))
    case Import(key) =>
      if key.None? then Outcome(l, Some(Report(0, 0, [Unresolved(at, r, 0)])))
      else
        var (l', thunk) := GetOrCreate(l, at, key.value);
        if thunk.None? then Outcome(l', Some(Report(0, 0, [Unresolved(at, r, 0)])))
        else Patch(l', at, thunk.value, Report(1, 1, [Unresolved(at, r, thunk.value)]))
  }

  /** What relocation never changes: the place and size of the thunk table, and what is mapped. */
  ghost predicate Fixed(l: Link, l': Link) {
    && l'.base == l.base && l'.capacity == l.capacity && |l.records| <= |l'.records|
    && l'.memory.words == l.memory.words && l'.memory.bytes.Keys == l.memory.bytes.Keys
  }

  /** relocate: the relocations in order, up to the first that throws. */
  function ApplyAll(l: Link, s: Symbols, m: Image, rs: seq<Reloc>): (o: Outcome)
    requires GoodLink(l)
    ensures GoodLink(o.link) && Fixed(l, o.link)
    decreases |rs|
  {
    if rs == [] then Outcome(l, Some(NOTHING))
    else
      var first := Apply(l, s, m, rs[0]);
      if first.report.None? then first
      else
        var rest := ApplyAll(first.link, s, m, rs[1..]);
        Outcome(rest.link, if rest.report.None? then None else Some(Sum(first.report.value, rest.report.value)))
  }

  // ---- What one relocation leaves alone ----------------------------------

  /** Two link states agree at a patch address: on its thunk, the thunk's target and the word itself. */
  ghost predicate SameAt(l: Link, l': Link, p: int)
    requires GoodLink(l) && GoodLink(l')
  {
    Fixed(l, l') && SameThunk(l, l', p) && SameWord(l.memory, l'.memory, p)
  }

  predicate SameThunk(l: Link, l': Link, p: int)
    requires |l.records| <= |l.targets| && |l'.records| <= |l'.targets|
  {
    && Find(l', p) == Find(l, p)
    && match Find(l, p) case None => true case Some(i) => l'.records[i] == l.records[i] && l'.targets[i] == l.targets[i]
  }

  lemma {:induction false} FindMore(records: seq<Record>, x: Record, p: int, i: nat)
    requires i <= |records|
    ensures FindFrom(records + [x], p, i)
            == if FindFrom(records, p, i).Some? then FindFrom(records, p, i)
               else if x.patch == p then Some(|records|) else None
    decreases |records| - i
  {
    if i < |records| { FindMore(records, x, p, i + 1); }
  }

  /** A relocation leaves the word and the thunk of every other patch address alone. */
  lemma ApplyElsewhere(l: Link, s: Symbols, m: Image, r: Reloc, p: int)
    requires GoodLink(l) && Apart(p, PatchAddress(m, r))
    ensures SameAt(l, Apply(l, s, m, r).link, p)
  {
    var at := PatchAddress(m, r);
    var w := Wants(s, m, r);
    ApplyMemory(l, s, m, r);
    if w.Import? && w.thunked.Some? && Find(l, at).None? && |l.records| < l.capacity {
      FindMore(l.records, Record(at, w.thunked.value), p, 0);
    }
    if v :| Apply(l, s, m, r).link.memory == StoreWord(l.memory, at, v) { StoreElsewhere(l.memory, at, v, p); }
  }

  /** A relocation writes its own word or nothing. */
  lemma ApplyMemory(l: Link, s: Symbols, m: Image, r: Reloc)
    requires GoodLink(l)
    ensures var l', at := Apply(l, s, m, r).link, PatchAddress(m, r);
            l'.memory == l.memory || (at in l.memory.words && exists v :: l'.memory == StoreWord(l.memory, at, v))
  {
  }

  // ---- Relinking --------------------------------------------------------

  /** Applying the relocation again would change nothing and report the same. */
  ghost predicate Settled(l: Link, s: Symbols, m: Image, r: Reloc, report: Report)
    requires GoodLink(l)
  {
    Apply(l, s, m, r) == Outcome(l, Some(report))
  }

  /** The link state after patching a word with `v` can be patched again without change. */
  lemma PatchAgain(l: Link, at: int, v: U64, report: Report)
    requires GoodLink(l) && at in l.memory.words
    ensures var l' := Patch(l, at, v, report).link; Patch(l', at, v, report) == Outcome(l', Some(report))
  {
    StoreHolds(l.memory, at, v);
    StoreAgain(StoreWord(l.memory, at, v), at, v);
  }

  lemma AppliedIsSettled(l: Link, s: Symbols, m: Image, r: Reloc)
    requires GoodLink(l) && Apply(l, s, m, r).report.Some?
    ensures Settled(Apply(l, s, m, r).link, s, m, r, Apply(l, s, m, r).report.value)
  {
    var at := PatchAddress(m, r);
    match Wants(s, m, r)
    case Plain(v, _) => if v.Some? { PatchAgain(l, at, v.value, Report(1, 0, [])); }
    case Resolved(v) => if v.Some? { PatchAgain(BindPatch(l, at, v.value), at, v.value, Report(1, 0, [])); }
    case Import(key) => if key.Some? { ThunkedIsSettled(l, s, m, r, key.value); }
  }

  lemma ThunkedIsSettled(l: Link, s: Symbols, m: Image, r: Reloc, key: Key)
    requires GoodLink(l) && Apply(l, s, m, r).report.Some? && Wants(s, m, r) == Import(Some(key))
    ensures Settled(Apply(l, s, m, r).link, s, m, r, Apply(l, s, m, r).report.value)
  {
    var at := PatchAddress(m, r);
    var (l', thunk) := GetOrCreate(l, at, key);
    if Find(l, at).None? && |l.records| < l.capacity { FindMore(l.records, Record(at, key), at, 0); }
    if thunk.Some? { PatchAgain(l', at, thunk.value, Report(1, 1, [Unresolved(at, r, thunk.value)])); }
  }

  /** A word that patching leaves as it is stays so wherever the word is the same. */
  lemma PatchWhereSame(m: Memory, m': Memory, at: int, v: U64)
    requires GoodMemory(m) && at in m.words && StoreWord(m, at, v) == m && SameWord(m, m', at)
    ensures StoreWord(m', at, v) == m'
  {
    StoredHolds(m, at, v);
    SameHolds(m, m', at, v);
    StoreAgain(m', at, v);
  }

  lemma SettledWhereSame(l: Link, l': Link, s: Symbols, m: Image, r: Reloc, report: Report)
    requires GoodLink(l) && GoodLink(l') && Settled(l, s, m, r, report) && SameAt(l, l', PatchAddress(m, r))
    ensures Settled(l', s, m, r, report)
  {
    var at := PatchAddress(m, r);
    match Wants(s, m, r)
    case Plain(v, _) => if v.Some? { PatchWhereSame(l.memory, l'.memory, at, v.value); }
    case Resolved(v) =>
      if v.Some? {
        assert BindPatch(l, at, v.value) == l && BindPatch(l', at, v.value) == l';
        PatchWhereSame(l.memory, l'.memory, at, v.value);
      }
    case Import(key) =>
      if key.Some? {
        var thunk := GetOrCreate(l, at, key.value).1;
        assert GetOrCreate(l, at, key.value).0 == l && GetOrCreate(l', at, key.value) == (l', thunk);
        if thunk.Some? { PatchWhereSame(l.memory, l'.memory, at, thunk.value); }
      }
  }
}
