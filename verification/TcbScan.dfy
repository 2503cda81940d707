/** The linear sweep that rewrites every TCB access of an executable segment. */
module TcbScan {
  import opened Base
  import opened X86
  import opened TcbThunk
  import opened TcbEquivalence

  datatype Mode = NoPatch | FsToGs | FsToTeb

  /** What the disassembler reports about one instruction. `fsDisp` is the displacement of a 64-bit
      memory source fs:[disp] without base and index; `dst` is the number of a 64-bit register
      destination, if that register is a general one. */
  datatype Instruction = Instruction(length: nat, op: Option<Alu>, dst64: bool, dst: Option<Reg>, fsDisp: Option<int>,
                                     prefixes: seq<Byte>, dispOffset: nat, dispSize: nat)

  type Disassembler = seq<Byte> -> Option<Instruction>

  /** The instruction format: at most 15 bytes, all of them given, with prefixes and displacement among them. */
  ghost predicate WellFormed(dis: Disassembler) {
    forall b :: dis(b).Some? ==>
      var i := dis(b).value;
      i.length <= |b| && i.length <= 15 && |i.prefixes| <= i.length
      && (i.dispSize == 32 ==> i.dispOffset + 4 <= i.length)
  }

  predicate IsAccess(i: Instruction) {
    i.op.Some? && i.dst64 && i.fsDisp.Some? && 0 <= i.fsDisp.value < TCB_SIZE
  }

  // ---- The sweep over unpatched bytes -----------------------------------

  datatype Entry = Bad(at: nat) | Good(at: nat, insn: Instruction)

  function Extent(e: Entry): nat { if e.Good? then e.insn.length else 1 }

  predicate Accesses(e: Entry) { e.Good? && IsAccess(e.insn) }

  function EntryOf(i: Option<Instruction>, at: nat): (e: Entry)
    ensures e.at == at
  {
    if i.None? || i.value.length == 0 then Bad(at) else Good(at, i.value)
  }

  function EntryAt(dis: Disassembler, bytes: seq<Byte>, at: nat): (e: Entry)
    requires at <= |bytes|
    ensures e.at == at
  {
    EntryOf(dis(bytes[at..]), at)
  }

  /** Entries that tile `bytes` from `at` on. */
  ghost predicate Sweep(dis: Disassembler, bytes: seq<Byte>, at: nat, entries: seq<Entry>, end: nat)
    decreases |entries|
  {
    if entries == [] then at == end
    else at < |bytes| && entries[0] == EntryAt(dis, bytes, at)
         && Sweep(dis, bytes, at + Extent(entries[0]), entries[1..], end)
  }

  /** How many of the first `n` entries decode, and how many of them access the TCB. */
  function GoodCount(entries: seq<Entry>, n: nat): nat
    requires n <= |entries|
  {
    if n == 0 then 0 else GoodCount(entries, n - 1) + (if entries[n - 1].Good? then 1 else 0)
  }

  function BadCount(entries: seq<Entry>, n: nat): nat
    requires n <= |entries|
  {
    if n == 0 then 0 else BadCount(entries, n - 1) + (if entries[n - 1].Good? then 0 else 1)
  }

  function AccessCount(entries: seq<Entry>, n: nat): nat
    requires n <= |entries|
  {
    if n == 0 then 0 else AccessCount(entries, n - 1) + (if Accesses(entries[n - 1]) then 1 else 0)
  }

  lemma {:induction false} CountPrefix(entries: seq<Entry>, more: seq<Entry>, n: nat)
    requires n <= |entries|
    ensures GoodCount(entries + more, n) == GoodCount(entries, n) && BadCount(entries + more, n) == BadCount(entries, n)
  {
    if n > 0 { CountPrefix(entries, more, n - 1); }
  }

  lemma {:induction false} SweepMore(dis: Disassembler, bytes: seq<Byte>, at: nat, entries: seq<Entry>, end: nat)
    requires Sweep(dis, bytes, at, entries, end) && end < |bytes|
    ensures Sweep(dis, bytes, at, entries + [EntryAt(dis, bytes, end)], end + Extent(EntryAt(dis, bytes, end)))
    decreases |entries|
  {
    var e := EntryAt(dis, bytes, end);
    if entries == [] {
      assert (entries + [e])[1..] == [];
    } else {
      SweepMore(dis, bytes, at + Extent(entries[0]), entries[1..], end);
      assert (entries + [e])[1..] == entries[1..] + [e];
    }
  }

  // ---- Memory -----------------------------------------------------------

  function Overlay(m: Memory, a: U64, bytes: seq<Byte>): Memory {
    (x: U64) => if a <= x < a + |bytes| then bytes[x - a] else m(x)
  }

  /** `m` and `n` agree on [lo, hi). */
  ghost predicate Agree(m: Memory, n: Memory, lo: int, hi: int) {
    forall x: U64 :: lo <= x < hi ==> m(x) == n(x)
  }

  lemma NoWrap(a: U64, i: nat)
    requires a + i < 0x1_0000_0000_0000_0000
    ensures Plus(a, i) == a + i
  {
  }

  lemma AgreeCode(m: Memory, n: Memory, a: U64, code: seq<Byte>)
    requires a + |code| <= 0x1_0000_0000_0000_0000 && Agree(m, n, a, a + |code|) && CodeAt(m, a, code)
    ensures CodeAt(n, a, code)
  {
    forall i | 0 <= i < |code| ensures n(Plus(a, i)) == code[i] { NoWrap(a, i); }
  }

  lemma OverlayCode(m: Memory, a: U64, code: seq<Byte>)
    requires a + |code| <= 0x1_0000_0000_0000_0000
    ensures CodeAt(Overlay(m, a, code), a, code)
  {
    forall i | 0 <= i < |code| ensures Overlay(m, a, code)(Plus(a, i)) == code[i] { NoWrap(a, i); }
  }

  function Spliced(v: seq<Byte>, k: nat, bytes: seq<Byte>): (w: seq<Byte>)
    requires k + |bytes| <= |v|
    ensures |w| == |v| && forall i :: 0 <= i < |w| ==> w[i] == if k <= i < k + |bytes| then bytes[i - k] else v[i]
  {
    v[..k] + bytes + v[k + |bytes|..]
  }

  /** Overlaying part of a window splices it. */
  lemma OverlaySplices(m: Memory, a: U64, was: seq<Byte>, k: nat, bytes: seq<Byte>)
    requires a + |was| <= U64_MAX && k + |bytes| <= |was| && CodeAt(m, a, was)
    ensures CodeAt(Overlay(m, a + k, bytes), a, Spliced(was, k, bytes))
  {
    var after := Spliced(was, k, bytes);
    forall i | 0 <= i < |after| ensures Overlay(m, a + k, bytes)(Plus(a, i)) == after[i] {
      NoWrap(a, i);
      assert m(Plus(a, i)) == was[i];
    }
  }

  // ---- What a patched entry looks like ----------------------------------

  datatype Kind =
    | Skipped        // not a TCB access
    | Failed         // an access left as it was
    | HalfInlined    // field 0: the GS prefix was written, the TEB displacement refused
    | Unflushed      // the jump was written, the flush refused; its thunk's place will be used again
    | Prefixed       // FS prefix turned into GS
    | Inlined        // field 0: GS prefix and the TEB displacement
    | Trampoline     // jump to an emitted thunk

  /** How an entry ends: the bytes now at its place, and the bytes emitted at `thunk` for it. */
  datatype Fate = Fate(kind: Kind, bytes: seq<Byte>, thunk: U64, code: seq<Byte>)

  /** The kinds that the report counts as unsupported. */
  predicate Unsupported(kind: Kind) { kind == Failed || Broken(kind) }

  /** The kinds that leave neither the original instruction nor a working patch. */
  predicate Broken(kind: Kind) { kind == HalfInlined || kind == Unflushed }

  /** `p` is the one FS prefix. */
  ghost predicate OnlyFs(prefixes: seq<Byte>, p: nat) {
    p < |prefixes| && prefixes[p] == 0x64 && forall q :: 0 <= q < |prefixes| && prefixes[q] == 0x64 ==> q == p
  }

  ghost predicate HasFsPrefix(i: Instruction) { exists p: nat :: OnlyFs(i.prefixes, p) }

  function AccessOf(i: Instruction): Access
    requires IsAccess(i) && i.dst.Some?
  {
    Access(i.op.value, i.dst.value, i.fsDisp.value)
  }

  /** The jump that replaces an instruction, padded to its length. */
  function SiteBytes(jump: seq<Byte>, length: nat): (s: seq<Byte>)
    requires |jump| <= length
    ensures |s| == length && jump <= s
  {
    jump + seq(length - |jump|, _ => 0x90)
  }

  /** How thunks and jumps are encoded, and the little-endian TEB offset. */
  datatype Emitter = Emitter(build: (Access, U64, U64) -> Option<seq<Byte>>, jump: (U64, U64) -> Option<seq<Byte>>,
                             teb: seq<Byte>)

  /** The bytes that `kind` calls for; `was` are the instruction's own bytes. */
  ghost predicate Meant(mode: Mode, em: Emitter, i: Instruction, was: seq<Byte>, site: U64, fate: Fate)
    requires |em.teb| == 4
  {
    match fate.kind
    case Skipped => !IsAccess(i) && fate.bytes == was
    case Failed => IsAccess(i) && fate.bytes == was
    case HalfInlined =>
      && mode == FsToTeb && IsAccess(i) && i.fsDisp == Some(0)
      && exists p: nat :: OnlyFs(i.prefixes, p) && p < |was| && fate.bytes == was[p := 0x65]
    case Unflushed =>
      && mode == FsToTeb && IsAccess(i) && i.fsDisp.value != 0 && NEAR_JUMP_SIZE <= i.length
      && em.jump(site, fate.thunk).Some? && |em.jump(site, fate.thunk).value| == NEAR_JUMP_SIZE
      && fate.bytes == SiteBytes(em.jump(site, fate.thunk).value, i.length)
    case Prefixed => mode == FsToGs && IsAccess(i)
                     && exists p: nat :: OnlyFs(i.prefixes, p) && p < |was| && fate.bytes == was[p := 0x65]
    case Inlined =>
      && mode == FsToTeb && IsAccess(i) && i.fsDisp == Some(0) && i.dispSize == 32 && i.dispOffset + 4 <= |was|
      && exists p: nat :: OnlyFs(i.prefixes, p) && p < |was|
                          && fate.bytes == Spliced(was[p := 0x65], i.dispOffset, em.teb)
    case Trampoline =>
      && mode == FsToTeb && IsAccess(i) && i.fsDisp.value != 0 && i.dst.Some? && NEAR_JUMP_SIZE <= i.length
      && em.build(AccessOf(i), fate.thunk, Plus(site, i.length)) == Some(fate.code)
      && em.jump(site, fate.thunk).Some? && |em.jump(site, fate.thunk).value| == NEAR_JUMP_SIZE
      && fate.bytes == SiteBytes(em.jump(site, fate.thunk).value, i.length)
  }

  /** Memory holds what the fate says. */
  ghost predicate Holds(m: Memory, site: U64, fate: Fate) {
    CodeAt(m, site, fate.bytes) && CodeAt(m, fate.thunk, fate.code)
  }

  /** The fate's bytes fill `length` bytes and its thunk, if any, lies in [lo, hi). */
  ghost predicate Placed(fate: Fate, length: nat, lo: int, hi: int) {
    && |fate.bytes| == length
    && (fate.kind == Trampoline ==> lo <= fate.thunk && fate.thunk + |fate.code| <= hi)
    && (fate.kind != Trampoline ==> fate.code == [])
  }

  /** Later writes that spare the site and the thunk keep what a fate says. */
  lemma HoldsOn(fate: Fate, m: Memory, n: Memory, site: U64, length: nat, lo: int, hi: int)
    requires site + length <= U64_MAX && hi <= U64_MAX && Placed(fate, length, lo, hi) && Holds(m, site, fate)
    requires Agree(m, n, site, site + length) && Agree(m, n, lo, hi)
    ensures Holds(n, site, fate)
  {
    AgreeCode(m, n, site, fate.bytes);
    if fate.kind == Trampoline { AgreeCode(m, n, fate.thunk, fate.code); }
  }

  // ---- Sweep state ------------------------------------------------------

  /** A segment to patch. `meant` says which fates an entry may meet. */
  datatype Job = Job(base: U64, bytes: seq<Byte>, meant: iset<(Entry, Fate)>)

  ghost predicate ValidJob(j: Job) { j.base + |j.bytes| <= U64_MAX }

  ghost predicate EntryDone(j: Job, e: Entry, fate: Fate, m: Memory, end: nat, lo: int, hi: int)
    requires ValidJob(j) && end <= |j.bytes|
  {
    e.at + Extent(e) <= end && (e, fate) in j.meant && (fate.kind != Skipped <==> Accesses(e))
    && Placed(fate, Extent(e), lo, hi) && Holds(m, j.base + e.at, fate)
  }

  /** The entries before `end` have been dealt with, with thunks in [lo, hi). */
  ghost predicate Done(j: Job, entries: seq<Entry>, fates: seq<Fate>, m: Memory, end: nat, lo: int, hi: int)
    requires ValidJob(j) && end <= |j.bytes|
  {
    |entries| == |fates| && forall k :: 0 <= k < |entries| ==> EntryDone(j, entries[k], fates[k], m, end, lo, hi)
  }

  /** Work ahead of the cursor keeps what is behind it. */
  lemma DoneStays(j: Job, entries: seq<Entry>, fates: seq<Fate>, m: Memory, n: Memory, end: nat, end': nat, lo: int,
                  hi: int, hi': int)
    requires ValidJob(j) && end <= end' <= |j.bytes| && hi <= hi' && hi <= U64_MAX
    requires Done(j, entries, fates, m, end, lo, hi)
    requires Agree(m, n, j.base, j.base + end) && Agree(m, n, lo, hi)
    ensures Done(j, entries, fates, n, end', lo, hi')
  {
    forall k | 0 <= k < |entries| ensures EntryDone(j, entries[k], fates[k], n, end', lo, hi') {
      HoldsOn(fates[k], m, n, j.base + entries[k].at, Extent(entries[k]), lo, hi);
    }
  }

  function FailedCount(fates: seq<Fate>, n: nat): nat
    requires n <= |fates|
  {
    if n == 0 then 0 else FailedCount(fates, n - 1) + (if Unsupported(fates[n - 1].kind) then 1 else 0)
  }

  function RewrittenCount(fates: seq<Fate>, n: nat): nat
    requires n <= |fates|
  {
    if n == 0 then 0 else RewrittenCount(fates, n - 1) + (if Unsupported(fates[n - 1].kind)
                                                          || fates[n - 1].kind == Skipped then 0 else 1)
  }

  lemma {:induction false} FatePrefix(fates: seq<Fate>, more: seq<Fate>, n: nat)
    requires n <= |fates|
    ensures FailedCount(fates + more, n) == FailedCount(fates, n)
            && RewrittenCount(fates + more, n) == RewrittenCount(fates, n)
  {
    if n > 0 { FatePrefix(fates, more, n - 1); }
  }

  lemma {:induction false} NoneFailed(fates: seq<Fate>, n: nat)
    requires n <= |fates|
    ensures FailedCount(fates, n) == 0 <==> forall k :: 0 <= k < n ==> !Unsupported(fates[k].kind)
  {
    if n > 0 { NoneFailed(fates, n - 1); }
  }

  /** Every entry is counted once, and every access as rewritten or unsupported. */
  lemma {:induction false} CountsAdd(entries: seq<Entry>, fates: seq<Fate>, n: nat)
    requires n <= |entries| == |fates|
             && forall k :: 0 <= k < n ==> (fates[k].kind != Skipped <==> Accesses(entries[k]))
    ensures GoodCount(entries, n) + BadCount(entries, n) == n
    ensures RewrittenCount(fates, n) + FailedCount(fates, n) == AccessCount(entries, n)
  {
    if n > 0 { CountsAdd(entries, fates, n - 1); }
  }

  datatype Arena = Arena(base: U64, size: U64, used: U64)

  /** The arena is mapped and does not meet [lo, hi). */
  predicate ArenaApart(a: Option<Arena>, lo: int, hi: int) {
    a.Some? ==>
      && a.value.used <= a.value.size && a.value.base + a.value.size <= U64_MAX
      && (a.value.base + a.value.size <= lo || hi <= a.value.base)
  }

  /** The end of the emitted thunks. */
  function Used(a: Option<Arena>): int { if a.Some? then a.value.base + a.value.used else 0 }

  /** The arena only fills up. */
  ghost predicate Grew(a: Option<Arena>, b: Option<Arena>) {
    && (b.Some? <==> a.Some?)
    && (b.Some? ==> b.value.base == a.value.base && b.value.size == a.value.size && a.value.used <= b.value.used)
  }

  /** Rewriting may touch [lo, hi) and the unused part of the arena. */
  ghost predicate Touched(m: Memory, n: Memory, a: Option<Arena>, lo: int, hi: int) {
    forall x: U64 :: !(lo <= x < hi) && !(a.Some? && Used(a) <= x < a.value.base + a.value.size) ==> n(x) == m(x)
  }

  datatype Report = Report(decoded: nat, failures: nat, rewritten: nat, unsupported: nat, bytes: nat)

  /** The report tallies the sweep of the original bytes and the arena's growth. */
  ghost predicate Tallies(r: Report, entries: seq<Entry>, fates: seq<Fate>, a: Option<Arena>, b: Option<Arena>) {
    && r.decoded == GoodCount(entries, |entries|) && r.failures == BadCount(entries, |entries|)
    && r.rewritten == RewrittenCount(fates, |fates|) && r.unsupported == FailedCount(fates, |fates|)
    && r.bytes == Used(b) - Used(a)
  }

  function Tally(r: Report, e: Entry, kind: Kind, emitted: nat): Report {
    Report(r.decoded + (if e.Good? then 1 else 0), r.failures + (if e.Bad? then 1 else 0),
           r.rewritten + (if Unsupported(kind) || kind == Skipped then 0 else 1),
           r.unsupported + (if Unsupported(kind) then 1 else 0), r.bytes + emitted)
  }

  /** One more entry is counted. */
  ghost predicate Tallied(r: Report, r': Report, e: Entry, fate: Fate, a: Option<Arena>, b: Option<Arena>) {
    Grew(a, b) && r' == Tally(r, e, fate.kind, Used(b) - Used(a))
  }

  lemma TallyMore(r: Report, r': Report, entries: seq<Entry>, fates: seq<Fate>, e: Entry, fate: Fate,
                  a0: Option<Arena>, a: Option<Arena>, b: Option<Arena>)
    requires Tallies(r, entries, fates, a0, a) && Tallied(r, r', e, fate, a, b)
    ensures Tallies(r', entries + [e], fates + [fate], a0, b)
  {
    CountPrefix(entries, [e], |entries|);
    FatePrefix(fates, [fate], |fates|);
  }

  /** The entry at the start of `rest`, at address `at`, has met a fate that the patching rules give. */
  ghost predicate Dealt(mode: Mode, em: Emitter, rest: seq<Byte>, at: U64, e: Entry, fate: Fate, m: Memory, n: Memory,
                        a: Option<Arena>, b: Option<Arena>)
    requires |em.teb| == 4 && Extent(e) <= |rest|
  {
    var was, end := rest[..Extent(e)], at + Extent(e);
    && ArenaApart(b, at, end) && Grew(a, b) && Touched(m, n, a, at, end)
    && (if e.Good? then Meant(mode, em, e.insn, was, at, fate) else fate.kind == Skipped && fate.bytes == was)
    && Holds(n, at, fate) && Placed(fate, Extent(e), Used(a), Used(b))
  }

  /** What one round does at `at`. */
  ghost predicate Visited(j: Job, e: Entry, fate: Fate, m: Memory, n: Memory, a: Option<Arena>, b: Option<Arena>)
    requires ValidJob(j)
  {
    var end := e.at + Extent(e);
    && end <= |j.bytes| && ArenaApart(b, j.base, j.base + |j.bytes|)
    && Grew(a, b) && Touched(m, n, a, j.base + e.at, j.base + end)
    && EntryDone(j, e, fate, n, end, Used(a), Used(b))
  }

  /** The entries before `end` tile the original bytes and have met their fates; the rest is as it was. */
  ghost predicate Progress(dis: Disassembler, j: Job, entries: seq<Entry>, fates: seq<Fate>, end: nat,
                           m: Memory, n: Memory, a: Option<Arena>, b: Option<Arena>)
    requires ValidJob(j) && end <= |j.bytes|
  {
    && Grew(a, b) && ArenaApart(b, j.base, j.base + |j.bytes|) && Touched(m, n, a, j.base, j.base + end)
    && Sweep(dis, j.bytes, 0, entries, end)
    && Done(j, entries, fates, n, end, Used(a), Used(b))
  }

  lemma DoneMore(j: Job, entries: seq<Entry>, fates: seq<Fate>, e: Entry, fate: Fate, m: Memory, n: Memory,
                 a0: Option<Arena>, a: Option<Arena>, b: Option<Arena>)
    requires ValidJob(j) && e.at < |j.bytes| && ArenaApart(a, j.base, j.base + |j.bytes|) && Grew(a0, a)
    requires Done(j, entries, fates, m, e.at, Used(a0), Used(a)) && Visited(j, e, fate, m, n, a, b)
    ensures Done(j, entries + [e], fates + [fate], n, e.at + Extent(e), Used(a0), Used(b))
  {
    DoneStays(j, entries, fates, m, n, e.at, e.at + Extent(e), Used(a0), Used(a), Used(b));
    assert EntryDone(j, e, fate, n, e.at + Extent(e), Used(a0), Used(b));
  }

  lemma TouchedMore(m0: Memory, m: Memory, n: Memory, a0: Option<Arena>, a: Option<Arena>, lo: int, mid: int, hi: int)
    requires Grew(a0, a) && lo <= mid <= hi && Touched(m0, m, a0, lo, mid) && Touched(m, n, a, mid, hi)
    ensures Touched(m0, n, a0, lo, hi)
  {
  }

  lemma Advance(dis: Disassembler, j: Job, entries: seq<Entry>, fates: seq<Fate>, e: Entry, fate: Fate,
                m0: Memory, m: Memory, n: Memory, a0: Option<Arena>, a: Option<Arena>, b: Option<Arena>)
    requires ValidJob(j) && e.at < |j.bytes| && e == EntryAt(dis, j.bytes, e.at)
    requires Progress(dis, j, entries, fates, e.at, m0, m, a0, a) && Visited(j, e, fate, m, n, a, b)
    ensures Progress(dis, j, entries + [e], fates + [fate], e.at + Extent(e), m0, n, a0, b)
  {
    SweepMore(dis, j.bytes, 0, entries, e.at);
    DoneMore(j, entries, fates, e, fate, m, n, a0, a, b);
    TouchedMore(m0, m, n, a0, a, j.base, j.base + e.at, j.base + e.at + Extent(e));
  }

  /** Ahead of the cursor, live memory still holds the original bytes. */
  lemma AheadAsWas(j: Job, end: nat, m: Memory, n: Memory, a: Option<Arena>)
    requires ValidJob(j) && end <= |j.bytes| && ArenaApart(a, j.base, j.base + |j.bytes|)
    requires Touched(m, n, a, j.base, j.base + end) && CodeAt(m, j.base, j.bytes)
    ensures CodeAt(n, j.base + end, j.bytes[end..])
  {
    var rest := j.bytes[end..];
    forall i | 0 <= i < |rest| ensures n(Plus(j.base + end, i)) == rest[i] {
      NoWrap(j.base, end + i);
      NoWrap(j.base + end, i);
      assert rest[i] == j.bytes[end + i];
    }
  }

  lemma CodeHead(m: Memory, a: U64, bytes: seq<Byte>, n: nat)
    requires n <= |bytes| && CodeAt(m, a, bytes)
    ensures CodeAt(m, a, bytes[..n])
  {
    forall i | 0 <= i < n ensures m(Plus(a, i)) == bytes[..n][i] { assert bytes[..n][i] == bytes[i]; }
  }

  /** The trampoline for an access, if the site is long enough, both jumps reach and the arena has room. */
  function PlanThunk(arena: Arena, site: U64, insn: Instruction, em: Emitter): (plan: Option<Fate>)
    requires |em.teb| == 4 && IsAccess(insn) && insn.fsDisp.value != 0
    requires arena.used <= arena.size && arena.base + arena.size <= U64_MAX
    ensures plan.Some? ==>
              var f := plan.value;
              && f.kind == Trampoline && f.thunk == arena.base + arena.used && |f.code| <= arena.size - arena.used
              && |f.bytes| == insn.length
  {
    var at := arena.base + arena.used;
    if insn.length < NEAR_JUMP_SIZE || insn.dst.None? then None
    else match (em.build(AccessOf(insn), at, Plus(site, insn.length)), em.jump(site, at))
      case (Some(code), Some(jump)) =>
        if |code| > arena.size - arena.used || |jump| != NEAR_JUMP_SIZE then None
        else Some(Fate(Trampoline, SiteBytes(jump, insn.length), at, code))
      case _ => None
  }

  lemma PlanMeant(arena: Arena, site: U64, insn: Instruction, em: Emitter, was: seq<Byte>)
    requires |em.teb| == 4 && IsAccess(insn) && insn.fsDisp.value != 0
    requires arena.used <= arena.size && arena.base + arena.size <= U64_MAX && PlanThunk(arena, site, insn, em).Some?
    ensures Meant(FsToTeb, em, insn, was, site, PlanThunk(arena, site, insn, em).value)
  {
  }

  lemma TrampolineWritten(m: Memory, at: U64, code: seq<Byte>, site: U64, bytes: seq<Byte>)
    requires at + |code| <= U64_MAX && site + |bytes| <= U64_MAX
    requires at + |code| <= site || site + |bytes| <= at
    ensures var n := Overlay(Overlay(m, at, code), site, bytes); CodeAt(n, at, code) && CodeAt(n, site, bytes)
  {
    var n := Overlay(m, at, code);
    OverlayCode(m, at, code);
    OverlayCode(n, site, bytes);
    AgreeCode(n, Overlay(n, site, bytes), at, code);
  }

  /** The access can be patched, as far as it depends on the instruction and the arena. */
  ghost predicate CanPatch(mode: Mode, a: Option<Arena>, site: U64, i: Instruction, em: Emitter)
    requires |em.teb| == 4 && IsAccess(i)
  {
    match mode
    case NoPatch => false
    case FsToGs => HasFsPrefix(i)
    case FsToTeb => if i.fsDisp.value == 0 then CanInline(i) else CanPlan(a, site, i, em)
  }

  ghost predicate CanInline(i: Instruction) { i.dispSize == 32 && i.dispOffset + 4 <= i.length && HasFsPrefix(i) }

  predicate CanPlan(a: Option<Arena>, site: U64, i: Instruction, em: Emitter)
    requires |em.teb| == 4 && IsAccess(i) && i.fsDisp.value != 0
  {
    a.Some? && a.value.used <= a.value.size && a.value.base + a.value.size <= U64_MAX
    && PlanThunk(a.value, site, i, em).Some?
  }

  /** How many bytes the thunks of the first `n` entries take up. */
  function Emitted(fates: seq<Fate>, n: nat): nat
    requires n <= |fates|
  {
    if n == 0 then 0 else Emitted(fates, n - 1) + |fates[n - 1].code|
  }

  /** The arena with `n` more bytes in use. */
  function Filled(a: Option<Arena>, n: nat): Option<Arena> {
    if a.None? || a.value.used + n > U64_MAX then None else Some(a.value.(used := a.value.used + n))
  }

  /** An access is rewritten exactly where it can be. */
  ghost predicate Served(mode: Mode, em: Emitter, at: U64, e: Entry, fate: Fate, a: Option<Arena>)
    requires |em.teb| == 4
  {
    Accesses(e) ==> (!Unsupported(fate.kind) <==> CanPatch(mode, a, at, e.insn, em))
  }

  /** Every access is rewritten exactly where it can be, with the arena filled by the thunks before it. */
  ghost predicate AllServed(mode: Mode, em: Emitter, base: U64, entries: seq<Entry>, fates: seq<Fate>,
                            a: Option<Arena>)
    requires |em.teb| == 4 && |entries| <= |fates|
  {
    forall k :: 0 <= k < |entries| && base + entries[k].at <= U64_MAX ==>
      Served(mode, em, base + entries[k].at, entries[k], fates[k], Filled(a, Emitted(fates, k)))
  }

  lemma {:induction false} EmittedPrefix(fates: seq<Fate>, more: seq<Fate>, n: nat)
    requires n <= |fates|
    ensures Emitted(fates + more, n) == Emitted(fates, n)
  {
    if n > 0 { EmittedPrefix(fates, more, n - 1); }
  }

  lemma ServedMore(mode: Mode, em: Emitter, base: U64, entries: seq<Entry>, fates: seq<Fate>, a0: Option<Arena>,
                   a: Option<Arena>, e: Entry, fate: Fate)
    requires |em.teb| == 4 && |entries| == |fates| && AllServed(mode, em, base, entries, fates, a0)
    requires a == Filled(a0, Emitted(fates, |fates|))
    requires base + e.at <= U64_MAX && Served(mode, em, base + e.at, e, fate, a)
    ensures AllServed(mode, em, base, entries + [e], fates + [fate], a0)
  {
    var es, fs := entries + [e], fates + [fate];
    forall k | 0 <= k < |es| && base + es[k].at <= U64_MAX
      ensures Served(mode, em, base + es[k].at, es[k], fs[k], Filled(a0, Emitted(fs, k)))
    {
      EmittedPrefix(fates, [fate], k);
    }
  }

  /** How far a sweep has come: how full the arena is and, for a willing host, what became of the entries. */
  ghost predicate OnCourse(willing: bool, mode: Mode, em: Emitter, base: U64, entries: seq<Entry>, fates: seq<Fate>,
                           a0: Option<Arena>, a: Option<Arena>)
  {
    && |em.teb| == 4 && |entries| == |fates| && Grew(a0, a) && a == Filled(a0, Emitted(fates, |fates|))
    && (willing ==> AllServed(mode, em, base, entries, fates, a0) && NoneBroken(fates))
  }

  ghost predicate NoneBroken(fates: seq<Fate>) { forall k :: 0 <= k < |fates| ==> !Broken(fates[k].kind) }

  lemma StaysOnCourse(willing: bool, mode: Mode, em: Emitter, base: U64, entries: seq<Entry>, fates: seq<Fate>,
                      a0: Option<Arena>, a: Option<Arena>, b: Option<Arena>, e: Entry, fate: Fate)
    requires OnCourse(willing, mode, em, base, entries, fates, a0, a)
    requires Grew(a, b) && Used(b) == Used(a) + |fate.code| && base + e.at <= U64_MAX
    requires willing ==> Served(mode, em, base + e.at, e, fate, a) && !Broken(fate.kind)
    ensures OnCourse(willing, mode, em, base, entries + [e], fates + [fate], a0, b)
  {
    FilledMore(fates, fate, a0, a, b);
    if willing { ServedMore(mode, em, base, entries, fates, a0, a, e, fate); }
  }

  /** One round: an entry is counted, the arena grows by its thunk, and a willing host grants what can be patched. */
  ghost predicate Rounded(willing: bool, mode: Mode, em: Emitter, base: U64, r: Report, r': Report, e: Entry,
                          fate: Fate, a: Option<Arena>, b: Option<Arena>)
  {
    && |em.teb| == 4 && Tallied(r, r', e, fate, a, b) && Used(b) == Used(a) + |fate.code| && base + e.at <= U64_MAX
    && (willing ==> Served(mode, em, base + e.at, e, fate, a) && !Broken(fate.kind))
  }

  ghost predicate Counted(willing: bool, mode: Mode, em: Emitter, base: U64, r: Report, entries: seq<Entry>,
                          fates: seq<Fate>, a0: Option<Arena>, a: Option<Arena>)
  {
    Tallies(r, entries, fates, a0, a) && OnCourse(willing, mode, em, base, entries, fates, a0, a)
  }

  lemma CountsOn(willing: bool, mode: Mode, em: Emitter, base: U64, r: Report, r': Report, entries: seq<Entry>,
                 fates: seq<Fate>, a0: Option<Arena>, a: Option<Arena>, b: Option<Arena>, e: Entry, fate: Fate)
    requires Counted(willing, mode, em, base, r, entries, fates, a0, a)
    requires Rounded(willing, mode, em, base, r, r', e, fate, a, b)
    ensures Counted(willing, mode, em, base, r', entries + [e], fates + [fate], a0, b)
  {
    TallyMore(r, r', entries, fates, e, fate, a0, a, b);
    StaysOnCourse(willing, mode, em, base, entries, fates, a0, a, b, e, fate);
  }

  lemma FilledMore(fates: seq<Fate>, fate: Fate, a0: Option<Arena>, a: Option<Arena>, b: Option<Arena>)
    requires a == Filled(a0, Emitted(fates, |fates|)) && Grew(a0, a) && Grew(a, b) && Used(b) == Used(a) + |fate.code|
    ensures b == Filled(a0, Emitted(fates + [fate], |fates| + 1))
  {
    var m := EmittedMore(fates, fate);
    FilledOn(a0, a, b, Emitted(fates, |fates|), |fate.code|, m);
  }

  lemma EmittedMore(fates: seq<Fate>, fate: Fate) returns (m: nat)
    ensures m == Emitted(fates + [fate], |fates| + 1) && m == Emitted(fates, |fates|) + |fate.code|
  {
    var fs, n := fates + [fate], |fates|;
    EmittedPrefix(fates, [fate], n);
    m := Emitted(fs, n + 1);
    assert m == Emitted(fs, n) + |fs[n].code|;
  }

  lemma FilledOn(a0: Option<Arena>, a: Option<Arena>, b: Option<Arena>, m: nat, k: nat, m': nat)
    requires a == Filled(a0, m) && Grew(a0, a) && Grew(a, b) && Used(b) == Used(a) + k && m' == m + k
    ensures b == Filled(a0, m')
  {
  }

  // ---- The patcher ------------------------------------------------------

  method FindFsPrefix(prefixes: seq<Byte>) returns (r: Option<nat>)
    ensures r.Some? ==> OnlyFs(prefixes, r.value)
    ensures r.None? ==> forall p :: !OnlyFs(prefixes, p)
  {
    r := None;
    for i := 0 to |prefixes|
      invariant r.None? ==> forall q :: 0 <= q < i ==> prefixes[q] != 0x64
      invariant r.Some? ==> r.value < i && prefixes[r.value] == 0x64
                            && forall q :: 0 <= q < i && prefixes[q] == 0x64 ==> q == r.value
    {
      if prefixes[i] == 0x64 {
        if r.Some? {
          assert prefixes[i] == prefixes[r.value] == 0x64 && i != r.value;
          return None;
        }
        r := Some(i);
      }
    }
  }

  class Patcher {
    var mem: Memory
    var arena: Option<Arena>
    /** The host answers each request to write guest memory or flush; `asked` counts the requests. */
    const host: nat -> bool
    var asked: nat

    constructor (mem: Memory, arena: Option<Arena>, host: nat -> bool)
      ensures this.mem == mem && this.arena == arena && this.host == host && this.asked == 0
    {
      this.mem, this.arena, this.host, this.asked := mem, arena, host, 0;
    }

    /** The host refuses nothing. */
    ghost predicate Willing() { forall n :: host(n) }

    /** The host grants the prefix and refuses the displacement, from request `n` on. */
    ghost predicate CutInline(i: Instruction, n: nat) {
      i.dispSize == 32 && i.dispOffset + 4 <= i.length && HasFsPrefix(i) && host(n) && !host(n + 1)
    }

    /** The host grants the thunk and the jump and refuses the flush. */
    ghost predicate CutTrampoline(a: Option<Arena>, site: U64, i: Instruction, em: Emitter, n: nat)
      requires |em.teb| == 4 && IsAccess(i) && i.fsDisp.value != 0 && ArenaApart(a, site, site + i.length)
    {
      a.Some? && PlanThunk(a.value, site, i, em).Some? && host(n) && host(n + 1) && !host(n + 2)
    }

    /** When an access is left broken. */
    ghost predicate Cut(mode: Mode, a: Option<Arena>, site: U64, i: Instruction, em: Emitter, n: nat)
      requires |em.teb| == 4 && IsAccess(i) && ArenaApart(a, site, site + i.length)
    {
      mode == FsToTeb && if i.fsDisp.value == 0 then CutInline(i, n) else CutTrampoline(a, site, i, em, n)
    }

    method Ask() returns (ok: bool)
      modifies `asked
      ensures ok == host(old(asked)) && asked == old(asked) + 1
    {
      ok := host(asked);
      asked := asked + 1;
    }

    /** A write to guest memory, all of it or none. */
    method Write(a: U64, bytes: seq<Byte>) returns (ok: bool)
      modifies `asked, `mem
      ensures ok == host(old(asked)) && asked == old(asked) + 1
      ensures mem == if ok then Overlay(old(mem), a, bytes) else old(mem)
    {
      ok := Ask();
      if ok { mem := Overlay(mem, a, bytes); }
    }

    method PatchPrefix(site: U64, insn: Instruction, ghost was: seq<Byte>) returns (ok: bool, ghost prefix: nat)
      requires |insn.prefixes| <= insn.length == |was| && site + insn.length <= U64_MAX && CodeAt(mem, site, was)
      modifies `asked, `mem
      ensures Touched(old(mem), mem, arena, site, site + insn.length) && (!ok ==> mem == old(mem))
      ensures ok ==> OnlyFs(insn.prefixes, prefix) && CodeAt(mem, site, was[prefix := 0x65])
      ensures ok <==> HasFsPrefix(insn) && host(old(asked))
      ensures ok ==> asked == old(asked) + 1
    {
      ok, prefix := false, 0;
      var p := FindFsPrefix(insn.prefixes);
      if p.Some? {
        prefix := p.value;
        ok := Write(site + p.value, [0x65]);
        if ok {
          OverlaySplices(old(mem), site, was, p.value, [0x65]);
          assert Spliced(was, p.value, [0x65]) == was[p.value := 0x65];
        }
      }
    }

    method PatchInline(site: U64, insn: Instruction, em: Emitter, ghost was: seq<Byte>)
      returns (ok: bool, ghost fate: Fate)
      requires |em.teb| == 4 && IsAccess(insn) && insn.fsDisp == Some(0)
      requires |insn.prefixes| <= insn.length == |was| && site + insn.length <= U64_MAX && CodeAt(mem, site, was)
      modifies `asked, `mem
      ensures Touched(old(mem), mem, arena, site, site + insn.length)
      ensures ok == (fate.kind == Inlined) && (!ok ==> Unsupported(fate.kind))
      ensures Broken(fate.kind) <==> CutInline(insn, old(asked))
      ensures ok <==> CanInline(insn) && host(old(asked)) && host(old(asked) + 1)
      ensures Meant(FsToTeb, em, insn, was, site, fate) && Placed(fate, insn.length, 0, 0) && Holds(mem, site, fate)
    {
      ok, fate := false, Fate(Failed, was, 0, []);
      if insn.dispSize != 32 || insn.dispOffset + 4 > insn.length { return; }
      ghost var prefix;
      ok, prefix := PatchPrefix(site, insn, was);
      if ok {
        fate := Fate(HalfInlined, was[prefix := 0x65], 0, []);
        OverlaySplices(mem, site, was[prefix := 0x65], insn.dispOffset, em.teb);
        ok := Write(site + insn.dispOffset, em.teb);
        if ok { fate := Fate(Inlined, Spliced(was[prefix := 0x65], insn.dispOffset, em.teb), 0, []); }
      }
    }

    method PatchTrampoline(site: U64, insn: Instruction, em: Emitter, ghost was: seq<Byte>)
      returns (ok: bool, emitted: nat, ghost fate: Fate)
      requires |em.teb| == 4 && IsAccess(insn) && insn.fsDisp.value != 0
      requires |was| == insn.length && CodeAt(mem, site, was)
      requires site + insn.length <= U64_MAX && ArenaApart(arena, site, site + insn.length)
      modifies `asked, `mem, `arena
      ensures Grew(old(arena), arena) && Touched(old(mem), mem, old(arena), site, site + insn.length)
      ensures ArenaApart(arena, site, site + insn.length) && emitted == Used(arena) - Used(old(arena))
      ensures ok == (fate.kind == Trampoline) && (!ok ==> Unsupported(fate.kind) && arena == old(arena))
      ensures Broken(fate.kind) <==> CutTrampoline(old(arena), site, insn, em, old(asked))
      ensures ok <==> CanPlan(old(arena), site, insn, em) && host(old(asked)) && host(old(asked) + 1)
                      && host(old(asked) + 2)
      ensures emitted == |fate.code|
      ensures Meant(FsToTeb, em, insn, was, site, fate)
      ensures ok ==> old(arena).Some? && PlanThunk(old(arena).value, site, insn, em) == Some(fate)
      ensures fate.kind == Unflushed ==>
                old(arena).Some? && PlanThunk(old(arena).value, site, insn, em).Some?
                && var plan := PlanThunk(old(arena).value, site, insn, em).value;
                   fate == Fate(Unflushed, plan.bytes, plan.thunk, [])
      ensures Holds(mem, site, fate) && Placed(fate, insn.length, Used(old(arena)), Used(arena))
    {
      ok, emitted, fate := false, 0, Fate(Failed, was, 0, []);
      if arena.None? { return; }
      var plan := PlanThunk(arena.value, site, insn, em);
      if plan.None? { return; }
      PlanMeant(arena.value, site, insn, em, was);
      ok, fate := WritePlan(plan.value, site, was);
      if ok {
        arena := Some(arena.value.(used := arena.value.used + |plan.value.code|));
        emitted := |plan.value.code|;
      }
    }

    /** Thunk, jump and flush, in this order; a refusal stops. */
    method WritePlan(plan: Fate, site: U64, ghost was: seq<Byte>) returns (ok: bool, ghost fate: Fate)
      requires plan.kind == Trampoline && |plan.bytes| == |was| && CodeAt(mem, site, was)
      requires site + |was| <= U64_MAX && plan.thunk + |plan.code| <= U64_MAX
      requires plan.thunk + |plan.code| <= site || site + |was| <= plan.thunk
      modifies `asked, `mem
      ensures forall x: U64 :: !(site <= x < site + |was|) && !(plan.thunk <= x < plan.thunk + |plan.code|) ==>
                                 mem(x) == old(mem)(x)
      ensures fate == if ok then plan else if fate.kind == Failed then Fate(Failed, was, 0, [])
                                           else Fate(Unflushed, plan.bytes, plan.thunk, [])
      ensures Holds(mem, site, fate) && asked <= old(asked) + 3
      ensures ok <==> host(old(asked)) && host(old(asked) + 1) && host(old(asked) + 2)
      ensures fate.kind == Unflushed <==> host(old(asked)) && host(old(asked) + 1) && !host(old(asked) + 2)
    {
      fate := Fate(Failed, was, 0, []);
      ok := WriteThunk(plan, site, was);
      if !ok { return; }
      ok := Write(site, plan.bytes);
      if !ok { return; }
      TrampolineWritten(old(mem), plan.thunk, plan.code, site, plan.bytes);
      fate := Fate(Unflushed, plan.bytes, plan.thunk, []);
      ok := Ask();
      if ok { fate := plan; }
    }

    /** The thunk goes into the unused part of the arena; the site stays as it is. */
    method WriteThunk(plan: Fate, site: U64, ghost was: seq<Byte>) returns (ok: bool)
      requires site + |was| <= U64_MAX && plan.thunk + |plan.code| <= U64_MAX && CodeAt(mem, site, was)
      requires plan.thunk + |plan.code| <= site || site + |was| <= plan.thunk
      modifies `asked, `mem
      ensures mem == (if ok then Overlay(old(mem), plan.thunk, plan.code) else old(mem)) && CodeAt(mem, site, was)
      ensures ok == host(old(asked)) && asked == old(asked) + 1
    {
      ok := Write(plan.thunk, plan.code);
      if ok { AgreeCode(old(mem), mem, site, was); }
    }

    /** One TCB access: rewritten, or counted as unsupported. */
    method PatchAccess(mode: Mode, site: U64, insn: Instruction, em: Emitter, ghost was: seq<Byte>)
      returns (ok: bool, emitted: nat, ghost fate: Fate)
      requires |em.teb| == 4 && IsAccess(insn)
      requires |insn.prefixes| <= insn.length == |was| && CodeAt(mem, site, was)
      requires site + insn.length <= U64_MAX && ArenaApart(arena, site, site + insn.length)
      modifies `asked, `mem, `arena
      ensures Grew(old(arena), arena) && Touched(old(mem), mem, old(arena), site, site + insn.length)
      ensures ArenaApart(arena, site, site + insn.length) && emitted == Used(arena) - Used(old(arena))
      ensures fate.kind != Skipped && (ok <==> !Unsupported(fate.kind))
      ensures Broken(fate.kind) <==> Cut(mode, old(arena), site, insn, em, old(asked))
      ensures emitted == |fate.code| && (Willing() ==> (ok <==> CanPatch(mode, old(arena), site, insn, em)))
      ensures Meant(mode, em, insn, was, site, fate) && Holds(mem, site, fate)
      ensures Placed(fate, insn.length, Used(old(arena)), Used(arena))
    {
      ok, emitted, fate := false, 0, Fate(Failed, was, 0, []);
      match mode
      case NoPatch =>
      case FsToGs =>
        ghost var prefix;
        ok, prefix := PatchPrefix(site, insn, was);
        if ok { fate := Fate(Prefixed, was[prefix := 0x65], 0, []); }
      case FsToTeb =>
        if insn.fsDisp.value == 0 {
          ok, fate := PatchInline(site, insn, em, was);
        } else {
          ok, emitted, fate := PatchTrampoline(site, insn, em, was);
        }
    }

    /** Disassembling live memory at the cursor. */
    method DecodeLive(dis: Disassembler, at: U64, n: nat, ghost bytes: seq<Byte>) returns (i: Option<Instruction>)
      requires |bytes| == n && CodeAt(mem, at, bytes)
      ensures i == dis(bytes)
    {
      var m := mem;
      var view := seq<Byte>(n, k => m(Plus(at, k)));
      assert view == bytes;
      return dis(view);
    }

    /** One round of the sweep: decode `rest` at the cursor and rewrite a TCB access. */
    method Visit(dis: Disassembler, at: U64, left: nat, mode: Mode, em: Emitter, r: Report, ghost k: nat,
                 ghost rest: seq<Byte>)
      returns (r': Report, length: nat, ghost e: Entry, ghost fate: Fate)
      requires WellFormed(dis) && |em.teb| == 4 && left == |rest| > 0 && at + left <= U64_MAX
      requires CodeAt(mem, at, rest) && ArenaApart(arena, at, at + left)
      modifies `asked, `mem, `arena
      ensures e == EntryOf(dis(rest), k) && length == Extent(e) && length <= left
      ensures Dealt(mode, em, rest, at, e, fate, old(mem), mem, old(arena), arena)
      ensures Tallied(r, r', e, fate, old(arena), arena) && (Willing() ==> !Broken(fate.kind))
      ensures Used(arena) == Used(old(arena)) + |fate.code|
      ensures Willing() ==> Served(mode, em, at, e, fate, old(arena))
    {
      var i := DecodeLive(dis, at, left, rest);
      length := if i.None? || i.value.length == 0 then 1 else i.value.length;
      e, fate := EntryOf(i, k), Fate(Skipped, rest[..length], 0, []);
      CodeHead(mem, at, rest, length);
      r' := if i.None? || i.value.length == 0 then r.(failures := r.failures + 1) else r.(decoded := r.decoded + 1);
      if i.Some? && i.value.length != 0 && IsAccess(i.value) {
        var ok, emitted;
        ok, emitted, fate := PatchAccess(mode, at, i.value, em, rest[..length]);
        r' := if ok then r'.(rewritten := r.rewritten + 1, bytes := r.bytes + emitted)
              else r'.(unsupported := r.unsupported + 1, bytes := r.bytes + emitted);
      }
    }

    /** The visit at an offset of the segment whose bytes were `bytes`. */
    method VisitAhead(dis: Disassembler, base: U64, size: U64, offset: nat, mode: Mode, em: Emitter, r: Report,
                      ghost bytes: seq<Byte>)
      returns (r': Report, next: nat, ghost e: Entry, ghost fate: Fate)
      requires WellFormed(dis) && |em.teb| == 4 && offset < size == |bytes| && base + size <= U64_MAX
      requires CodeAt(mem, base + offset, bytes[offset..]) && ArenaApart(arena, base, base + size)
      modifies `asked, `mem, `arena
      ensures e.at == offset && e == EntryAt(dis, bytes, offset) && next == offset + Extent(e) && offset < next <= size
      ensures Dealt(mode, em, bytes[offset..], base + offset, e, fate, old(mem), mem, old(arena), arena)
      ensures Tallied(r, r', e, fate, old(arena), arena) && (Willing() ==> !Broken(fate.kind))
      ensures Used(arena) == Used(old(arena)) + |fate.code|
      ensures Willing() ==> Served(mode, em, base + offset, e, fate, old(arena))
    {
      var length;
      r', length, e, fate := Visit(dis, base + offset, size - offset, mode, em, r, offset, bytes[offset..]);
      next := offset + length;
    }

    /** One round keeps the sweep on course. */
    method Round(dis: Disassembler, base: U64, size: U64, offset: nat, mode: Mode, em: Emitter, r: Report, ghost j: Job,
                 ghost m0: Memory, ghost a0: Option<Arena>, ghost entries: seq<Entry>, ghost fates: seq<Fate>)
      returns (r': Report, next: nat, ghost e: Entry, ghost fate: Fate)
      requires WellFormed(dis) && ValidJob(j) && Allows(j, mode, em) && base == j.base && size == |j.bytes|
               && offset < size
      requires CodeAt(m0, base, j.bytes) && ArenaApart(a0, base, base + size)
      requires Progress(dis, j, entries, fates, offset, m0, mem, a0, arena)
      modifies `asked, `mem, `arena
      ensures offset < next <= size
      ensures Progress(dis, j, entries + [e], fates + [fate], next, m0, mem, a0, arena)
      ensures Rounded(Willing(), mode, em, base, r, r', e, fate, old(arena), arena)
    {
      ghost var m, a := mem, arena;
      AheadAsWas(j, offset, m0, mem, a0);
      r', next, e, fate := VisitAhead(dis, base, size, offset, mode, em, r, j.bytes);
      assert Rounded(Willing(), mode, em, base, r, r', e, fate, a, arena);
      Advances(dis, j, mode, em, entries, fates, offset, next, e, fate, m0, m, mem, a0, a, arena);
    }

    /** One round, counted. */
    method Turn(dis: Disassembler, base: U64, size: U64, offset: nat, mode: Mode, em: Emitter, r: Report, ghost j: Job,
                ghost m0: Memory, ghost a0: Option<Arena>, ghost entries: seq<Entry>, ghost fates: seq<Fate>)
      returns (r': Report, next: nat, ghost e: Entry, ghost fate: Fate)
      requires WellFormed(dis) && ValidJob(j) && Allows(j, mode, em) && base == j.base && size == |j.bytes|
               && offset < size
      requires CodeAt(m0, base, j.bytes) && ArenaApart(a0, base, base + size)
      requires Progress(dis, j, entries, fates, offset, m0, mem, a0, arena)
      requires Counted(Willing(), mode, em, base, r, entries, fates, a0, arena)
      modifies `asked, `mem, `arena
      ensures offset < next <= size
      ensures Progress(dis, j, entries + [e], fates + [fate], next, m0, mem, a0, arena)
      ensures Counted(Willing(), mode, em, base, r', entries + [e], fates + [fate], a0, arena)
    {
      ghost var a := arena;
      r', next, e, fate := Round(dis, base, size, offset, mode, em, r, j, m0, a0, entries, fates);
      CountsOn(Willing(), mode, em, base, r, r', entries, fates, a0, a, arena, e, fate);
    }

    /** The entries are the linear sweep of the bytes as they were, although the sweep reads live memory;
        every entry has met a fate that the job allows, and nothing else in the segment changes. */
    method Scan(dis: Disassembler, base: U64, size: U64, mode: Mode, em: Emitter, ghost j: Job)
      returns (r: Report, ghost entries: seq<Entry>, ghost fates: seq<Fate>)
      requires WellFormed(dis) && ValidJob(j) && Allows(j, mode, em) && base == j.base && size == |j.bytes|
      requires CodeAt(mem, base, j.bytes) && ArenaApart(arena, base, base + size)
      modifies `asked, `mem, `arena
      ensures Progress(dis, j, entries, fates, size, old(mem), mem, old(arena), arena)
      ensures Tallies(r, entries, fates, old(arena), arena)
      ensures OnCourse(Willing(), mode, em, base, entries, fates, old(arena), arena)
    {
      r, entries, fates := Report(0, 0, 0, 0, 0), [], [];
      var offset := 0;
      while offset < size
        invariant offset <= size
        invariant Progress(dis, j, entries, fates, offset, old(mem), mem, old(arena), arena)
        invariant Counted(Willing(), mode, em, base, r, entries, fates, old(arena), arena)
      {
        ghost var e, fate;
        r, offset, e, fate := Turn(dis, base, size, offset, mode, em, r, j, old(mem), old(arena), entries, fates);
        entries, fates := entries + [e], fates + [fate];
      }
    }

    /** The whole pass. Success also needs the final instruction-cache flush when something was rewritten. */
    method PatchTcbAccesses(dis: Disassembler, base: U64, size: U64, viewed: bool, mode: Mode, em: Emitter,
                            ghost j: Job)
      returns (report: Option<Report>, ghost entries: seq<Entry>, ghost fates: seq<Fate>)
      requires WellFormed(dis) && ValidJob(j) && Allows(j, mode, em) && base == j.base && size == |j.bytes|
      requires CodeAt(mem, base, j.bytes) && ArenaApart(arena, base, base + size)
      modifies `asked, `mem, `arena
      ensures report.Some? ==> 0 < size && viewed && Tallies(report.value, entries, fates, old(arena), arena)
      ensures if 0 < size && viewed then Progress(dis, j, entries, fates, size, old(mem), mem, old(arena), arena)
              else mem == old(mem) && arena == old(arena)
      ensures Willing() ==> (report.Some? <==> 0 < size && viewed)
      ensures OnCourse(Willing(), mode, em, base, entries, fates, old(arena), arena)
    {
      report, entries, fates := None, [], [];
      if size == 0 || !viewed { return; }
      var r;
      r, entries, fates := Scan(dis, base, size, mode, em, j);
      if r.rewritten != 0 {
        var ok := Ask();
        if !ok { return; }
      }
      report := Some(r);
    }
  }

  lemma IsVisited(j: Job, mode: Mode, em: Emitter, e: Entry, fate: Fate, m: Memory, n: Memory, a: Option<Arena>,
                  b: Option<Arena>)
    requires ValidJob(j) && Allows(j, mode, em) && e.at + Extent(e) <= |j.bytes|
    requires ArenaApart(a, j.base, j.base + |j.bytes|)
    requires Dealt(mode, em, j.bytes[e.at..], j.base + e.at, e, fate, m, n, a, b)
    ensures Visited(j, e, fate, m, n, a, b)
  {
    assert j.bytes[e.at..][..Extent(e)] == j.bytes[e.at..e.at + Extent(e)];
    assert EntryMeant(j.base, j.bytes, mode, em, e, fate);
    assert fate.kind != Skipped <==> Accesses(e);
  }

  lemma Advances(dis: Disassembler, j: Job, mode: Mode, em: Emitter, entries: seq<Entry>, fates: seq<Fate>,
                 at: nat, next: nat, e: Entry, fate: Fate, m0: Memory, m: Memory, n: Memory,
                 a0: Option<Arena>, a: Option<Arena>, b: Option<Arena>)
    requires ValidJob(j) && Allows(j, mode, em) && at < |j.bytes| && e == EntryAt(dis, j.bytes, at)
    requires at + Extent(e) == next <= |j.bytes| && Dealt(mode, em, j.bytes[at..], j.base + at, e, fate, m, n, a, b)
    requires Progress(dis, j, entries, fates, at, m0, m, a0, a)
    ensures Progress(dis, j, entries + [e], fates + [fate], next, m0, n, a0, b)
  {
    IsVisited(j, mode, em, e, fate, m, n, a, b);
    Advance(dis, j, entries, fates, e, fate, m0, m, n, a0, a, b);
  }

  /** The fates that the patching rules give are among those that the job allows. */
  ghost predicate Allows(j: Job, mode: Mode, em: Emitter)
    requires ValidJob(j)
  {
    && |em.teb| == 4
    && forall e: Entry, f: Fate {:trigger EntryMeant(j.base, j.bytes, mode, em, e,
                                                     f)} :: e.at + Extent(e) <= |j.bytes|
                                                            && EntryMeant(j.base, j.bytes, mode, em, e, f) ==>
                                                              (e, f) in j.meant
  }

  ghost predicate EntryMeant(base: U64, bytes: seq<Byte>, mode: Mode, em: Emitter, e: Entry, f: Fate)
    requires |em.teb| == 4 && e.at + Extent(e) <= |bytes| && base + |bytes| <= U64_MAX
  {
    var was := bytes[e.at..e.at + Extent(e)];
    if e.Good? then Meant(mode, em, e.insn, was, base + e.at, f) else f.kind == Skipped && f.bytes == was
  }

  /** The fates that the job allows are exactly those that the patching rules give. */
  ghost predicate Exactly(j: Job, mode: Mode, em: Emitter)
    requires ValidJob(j)
  {
    && Allows(j, mode, em)
    && forall p :: p in j.meant ==> p.0.at + Extent(p.0) <= |j.bytes| && EntryMeant(j.base, j.bytes, mode, em, p.0, p.1)
  }

  lemma JobExists(base: U64, bytes: seq<Byte>, mode: Mode, em: Emitter) returns (j: Job)
    requires |em.teb| == 4 && base + |bytes| <= U64_MAX
    ensures j.base == base && j.bytes == bytes && Exactly(j, mode, em)
  {
    j := Job(base, bytes, iset e: Entry, f: Fate | e.at + Extent(e) <= |bytes|
             && EntryMeant(base, bytes, mode, em, e, f) :: (e, f));
  }

  lemma MeantIn(j: Job, mode: Mode, em: Emitter, e: Entry, f: Fate)
    requires ValidJob(j) && Exactly(j, mode, em) && (e, f) in j.meant && e.Good?
    ensures e.at + Extent(e) <= |j.bytes|
    ensures Meant(mode, em, e.insn, j.bytes[e.at..e.at + Extent(e)], j.base + e.at, f)
  {
    assert EntryMeant(j.base, j.bytes, mode, em, (e, f).0, (e, f).1);
  }

  lemma FateOf(j: Job, entries: seq<Entry>, fates: seq<Fate>, n: Memory, lo: int, hi: int, k: nat)
    requires ValidJob(j) && Done(j, entries, fates, n, |j.bytes|, lo, hi) && k < |entries|
             && FailedCount(fates, |fates|) == 0
    ensures entries[k].at + Extent(entries[k]) <= |j.bytes| && (entries[k], fates[k]) in j.meant
    ensures !Unsupported(fates[k].kind) && Holds(n, j.base + entries[k].at, fates[k])
  {
    assert EntryDone(j, entries[k], fates[k], n, |j.bytes|, lo, hi);
    NoneFailed(fates, |fates|);
  }

  /** A pass that reports nothing unsupported has given every access to a nonzero field its trampoline. */
  lemma EveryAccessHasThunk(dis: Disassembler, j: Job, em: Emitter, entries: seq<Entry>, fates: seq<Fate>,
                            r: Report, m: Memory, n: Memory, a: Option<Arena>, b: Option<Arena>, k: nat)
    requires ValidJob(j) && Exactly(j, FsToTeb, em) && Progress(dis, j, entries, fates, |j.bytes|, m, n, a, b)
    requires Tallies(r, entries, fates, a, b) && r.unsupported == 0
    requires k < |entries| && Accesses(entries[k]) && entries[k].insn.fsDisp.value != 0
    ensures entries[k].at + Extent(entries[k]) <= |j.bytes| && fates[k].kind == Trampoline
    ensures var site := j.base + entries[k].at;
            Holds(n, site, fates[k])
            && Meant(FsToTeb, em, entries[k].insn, j.bytes[entries[k].at..entries[k].at + Extent(entries[k])], site,
                     fates[k])
  {
    FateOf(j, entries, fates, n, Used(a), Used(b), k);
    MeantIn(j, FsToTeb, em, entries[k], fates[k]);
  }

  /** The encodings of the x86-64 patcher. */
  ghost predicate Encodes(em: Emitter, teb: int) {
    && 0 <= teb < 0x1_0000_0000 && em.teb == Le32(teb)
    && (forall a: Access, at, back :: a.offset < TCB_SIZE ==> em.build(a, at, back) == BuildThunk(a, teb, at, back))
    && forall at, target :: em.jump(at, target) == NearJump(at, target)
  }

  lemma JumpIsThere(c: Cpu, f: Fate, length: nat)
    requires NearJump(c.rip, f.thunk).Some? && NEAR_JUMP_SIZE <= length
    requires f.bytes == SiteBytes(NearJump(c.rip, f.thunk).value, length) && CodeAt(c.mem, c.rip, f.bytes)
    ensures CodeAt(c.mem, c.rip, NearJump(c.rip, f.thunk).value)
  {
    var jump := NearJump(c.rip, f.thunk).value;
    assert f.bytes[..|jump|] == jump;
    CodeHead(c.mem, c.rip, f.bytes, |jump|);
  }

  ghost function Decoded(entries: seq<Entry>, n: nat): set<int>
    requires n <= |entries|
  {
    set k | 0 <= k < n && entries[k].Good?
  }

  ghost function Rewritten(fates: seq<Fate>, n: nat): set<int>
    requires n <= |fates|
  {
    set k | 0 <= k < n && (fates[k].kind == Prefixed || fates[k].kind == Inlined || fates[k].kind == Trampoline)
  }

  ghost function Refused(fates: seq<Fate>, n: nat): set<int>
    requires n <= |fates|
  {
    set k | 0 <= k < n && Unsupported(fates[k].kind)
  }

  /** The counts of the report are the numbers of such entries. */
  lemma {:induction false} DecodedAre(entries: seq<Entry>, n: nat)
    requires n <= |entries|
    ensures GoodCount(entries, n) == |Decoded(entries, n)| && BadCount(entries, n) == n - |Decoded(entries, n)|
  {
    if n > 0 {
      var m := n - 1;
      DecodedAre(entries, m);
      assert Decoded(entries, n) - {m} == Decoded(entries, m);
      OneMore(Decoded(entries, m), Decoded(entries, n), m);
    }
  }

  lemma {:induction false} RewrittenAre(fates: seq<Fate>, n: nat)
    requires n <= |fates|
    ensures RewrittenCount(fates, n) == |Rewritten(fates, n)|
  {
    if n > 0 {
      var m := n - 1;
      RewrittenAre(fates, m);
      assert Rewritten(fates, n) - {m} == Rewritten(fates, m);
      OneMore(Rewritten(fates, m), Rewritten(fates, n), m);
    }
  }

  lemma {:induction false} RefusedAre(fates: seq<Fate>, n: nat)
    requires n <= |fates|
    ensures FailedCount(fates, n) == |Refused(fates, n)|
  {
    if n > 0 {
      var m := n - 1;
      RefusedAre(fates, m);
      assert Refused(fates, n) - {m} == Refused(fates, m);
      OneMore(Refused(fates, m), Refused(fates, n), m);
    }
  }

  lemma OneMore(a: set<int>, b: set<int>, m: int)
    requires m !in a && b - {m} == a
    ensures |b| == |a| + if m in b then 1 else 0
  {
    if m in b { assert b == a + {m}; } else { assert b == a; }
  }

  /** The report accounts for every entry and every access. */
  lemma ReportAdds(dis: Disassembler, j: Job, entries: seq<Entry>, fates: seq<Fate>, r: Report,
                   m: Memory, n: Memory, a: Option<Arena>, b: Option<Arena>)
    requires ValidJob(j) && Progress(dis, j, entries, fates, |j.bytes|, m, n, a, b) && Tallies(r, entries, fates, a, b)
    ensures r.decoded + r.failures == |entries| && r.rewritten + r.unsupported == AccessCount(entries, |entries|)
    ensures r.decoded == |Decoded(entries, |entries|)| && r.rewritten == |Rewritten(fates, |entries|)|
    ensures r.unsupported == |Refused(fates, |entries|)| && r.bytes == Used(b) - Used(a)
  {
    DecodedAre(entries, |entries|);
    RewrittenAre(fates, |entries|);
    RefusedAre(fates, |entries|);
    forall k | 0 <= k < |entries| ensures fates[k].kind != Skipped <==> Accesses(entries[k]) {
      assert EntryDone(j, entries[k], fates[k], n, |j.bytes|, Used(a), Used(b));
    }
    CountsAdd(entries, fates, |entries|);
  }
}
