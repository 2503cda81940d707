/** What the pass does to a segment, told by what the machine finds in its bytes. */
module TcbSegment {
  import opened Base
  import opened X86
  import opened TcbThunk
  import opened TcbEquivalence
  import opened TcbInline
  import opened TcbScan
  import opened TcbPass

  // ---- Accesses as the machine sees them --------------------------------

  /** At the start of `b` the machine finds `op dst, fs:[disp]`, all of it in `b`, with `disp` inside the TCB. */
  predicate Finds(core: Core, b: seq<Byte>, op: Alu, dst: Reg, disp: int, len: nat) {
    && DecodePrefixed(core, Stream(b)) == Some(Decoded(Op(op, dst, InMem(Fs, NoBase, disp)), len))
    && len <= |b| && len <= 15 && 0 <= disp < 0x40
  }

  ghost predicate FindsAny(core: Core, b: seq<Byte>) {
    exists op, dst: Reg, disp, len: nat :: Finds(core, b, op, dst, disp, len)
  }

  /** A 64-bit operation on fs:[disp] is reported, with `disp` inside the TCB. */
  predicate Reports(r: Option<Instruction>) {
    r.Some? && r.value.op.Some? && r.value.dst64 && r.value.fsDisp.Some? && 0 <= r.value.fsDisp.value < 0x40
  }

  predicate ReportsThis(r: Option<Instruction>, op: Alu, dst: Reg, disp: int, len: nat) {
    Reports(r) && r.value.op == Some(op) && r.value.dst == Some(dst) && r.value.fsDisp == Some(disp)
    && r.value.length == len
  }

  /** The report of an access lists legacy prefixes only, names a general register and finds a 32-bit displacement. */
  predicate Legacy(i: Instruction, s: nat -> Byte) {
    |i.prefixes| <= Skip(s, Skip(s, 0) + 1) && i.dst.Some? && i.dispSize == 32
  }

  /** The disassembler reads accesses as the machine does and misses none. */
  ghost predicate Faithful(dis: Disassembler, core: Core) {
    && Agrees(dis, core)
    && (forall b, op, dst: Reg, disp, len: nat :: Finds(core, b, op, dst, disp, len) ==>
                                               ReportsThis(dis(b), op, dst, disp, len))
    && forall b :: Reports(dis(b)) ==> Legacy(dis(b).value, Stream(b))
  }

  lemma ReferenceReports(core: Core, b: seq<Byte>)
    requires Uniform(core)
    ensures forall op, dst: Reg, disp, len: nat :: Finds(core, b, op, dst, disp, len) ==>
                                                ReportsThis(Reference(core, b), op, dst, disp, len)
    ensures Reports(Reference(core, b)) ==> Legacy(Reference(core, b).value, Stream(b))
  {
    forall op, dst: Reg, disp, len: nat | Finds(core, b, op, dst, disp, len)
      ensures ReportsThis(Reference(core, b), op, dst, disp, len)
    {
      PrefixIsFs(core, Stream(b), op, dst, disp, len);
    }
  }

  /** There is such a disassembler. */
  lemma ReferenceFaithful()
    ensures Faithful(b => Reference(DecodeAt, b), DecodeAt)
  {
    DecodeAtUniform();
    ReferenceAgrees();
    forall b, op, dst: Reg, disp, len: nat | Finds(DecodeAt, b, op, dst, disp, len)
      ensures ReportsThis(Reference(DecodeAt, b), op, dst, disp, len) { ReferenceReports(DecodeAt, b); }
    forall b | Reports(Reference(DecodeAt, b)) ensures Legacy(Reference(DecodeAt, b).value, Stream(b)) {
      ReferenceReports(DecodeAt, b);
    }
  }

  /** The report is an access exactly where the machine finds one. */
  lemma ReportsFound(dis: Disassembler, core: Core, b: seq<Byte>)
    requires Faithful(dis, core)
    ensures FindsAny(core, b) <==> Reports(dis(b))
    ensures Reports(dis(b)) ==>
              var i := dis(b).value;
              i.dst.Some? && Finds(core, b, i.op.value, i.dst.value, i.fsDisp.value, i.length)
  {
    if Reports(dis(b)) {
      var i := dis(b).value;
      assert Legacy(i, Stream(b));
      assert Reported(dis(b), b, Stream(b));
      assert Describes(core, i, Stream(b));
      assert Finds(core, b, i.op.value, i.dst.value, i.fsDisp.value, i.length);
    }
  }

  // ---- What becomes of an entry -----------------------------------------

  /** The patch that the mode has for an access to the field at `disp`. */
  predicate PatchFor(mode: Mode, disp: int, kind: Kind) {
    match mode
    case NoPatch => false
    case FsToGs => kind == Prefixed
    case FsToTeb => if disp == 0 then kind == Inlined else kind == Trampoline
  }

  /** Where the machine finds an access, it is patched as the mode has it or counted as unsupported; where it finds
      none, the bytes stay as they were. */
  ghost predicate Treated(core: Core, base: U64, bytes: seq<Byte>, mode: Mode, n: Memory, e: Entry, f: Fate) {
    && e.at + Extent(e) <= |bytes| && base + |bytes| <= U64_MAX
    && (if FindsAny(core, bytes[e.at..]) then f.kind != Skipped
        else f.kind == Skipped && CodeAt(n, base + e.at, bytes[e.at..e.at + Extent(e)]))
    && forall op, dst: Reg, disp, len: nat :: Finds(core, bytes[e.at..], op, dst, disp, len) ==>
         Extent(e) == len && (Unsupported(f.kind) || PatchFor(mode, disp, f.kind))
  }

  /** Where the machine finds an access, the patched bytes behave as that access did. */
  ghost predicate BehavesAsFound(decode: Decoder, core: Core, base: U64, bytes: seq<Byte>, n: Memory, lo: int, hi: int,
                                 teb: int, e: Entry, f: Fate)
    requires 0 <= teb < 0x1_0000_0000 && e.at <= |bytes|
  {
    forall op, dst: Reg, disp, len: nat :: Finds(core, bytes[e.at..], op, dst, disp, len) ==>
      BehavesAs(decode, base, |bytes|, n, lo, hi, teb, e.at, f, Access(op, dst, disp), len)
  }

  ghost predicate BehavesAs(decode: Decoder, base: U64, size: nat, n: Memory, lo: int, hi: int, teb: int, at: nat,
                            f: Fate, acc: Access, len: nat)
    requires 0 <= teb < 0x1_0000_0000 && acc.offset < TCB_SIZE
  {
    forall c: Cpu :: c.rip == base + at && Carries(c.mem, n, base, size, lo, hi) && Kept(c, acc, teb, f)
                     ==> Behaves(decode, c, f, acc, teb, len)
  }

  /** A near jump whose next instruction is at `from` reaches `to`. */
  predicate Near(from: int, to: int) { -0x8000_0000 <= to - from < 0x8000_0000 }

  /** Which accesses can be patched: all of them under GS; under the TEB those to the first field, and of the others
      those that are no CMP or XOR on the stack pointer and have room and reach for their thunk. */
  predicate Patchable(mode: Mode, a: Option<Arena>, site: int, acc: Access, len: nat) {
    match mode
    case NoPatch => false
    case FsToGs => true
    case FsToTeb =>
      acc.offset == 0
      || (a.Some? && (acc.op == Mov || acc.dst != RSP) && a.value.used + ThunkSize(acc) <= a.value.size
          && var thunk := a.value.base + a.value.used;
             Near(site + NEAR_JUMP_SIZE, thunk) && Near(thunk + ThunkSize(acc), site + len))
  }

  ghost predicate ServedAsFound(core: Core, base: U64, bytes: seq<Byte>, mode: Mode, a: Option<Arena>, e: Entry,
                                f: Fate)
    requires e.at <= |bytes|
  {
    forall op, dst: Reg, disp, len: nat :: Finds(core, bytes[e.at..], op, dst, disp, len) ==>
      (Unsupported(f.kind) <==> !Patchable(mode, a, base + e.at, Access(op, dst, disp), len))
  }

  lemma EntryFound(dis: Disassembler, core: Core, bytes: seq<Byte>, e: Entry)
    requires Faithful(dis, core) && Uniform(core) && e.at <= |bytes| && e == EntryAt(dis, bytes, e.at)
    ensures Accesses(e) <==> FindsAny(core, bytes[e.at..])
    ensures Accesses(e) ==> e.insn.dst.Some?
    ensures forall op, dst: Reg, disp, len: nat :: Finds(core, bytes[e.at..], op, dst, disp, len) ==>
              Accesses(e) && e.insn.op == Some(op) && e.insn.dst == Some(dst) && e.insn.fsDisp == Some(disp)
              && e.insn.length == len
  {
    ReportsFound(dis, core, bytes[e.at..]);
    forall op, dst: Reg, disp, len: nat | Finds(core, bytes[e.at..], op, dst, disp, len)
      ensures len > 0 && ReportsThis(dis(bytes[e.at..]), op, dst, disp, len)
    {
      PrefixIsFs(core, Stream(bytes[e.at..]), op, dst, disp, len);
    }
  }

  lemma EntryTreated(dis: Disassembler, core: Core, j: Job, mode: Mode, em: Emitter, e: Entry, f: Fate, n: Memory,
                     lo: int, hi: int)
    requires Faithful(dis, core) && Uniform(core) && ValidJob(j) && Exactly(j, mode, em) && e.at <= |j.bytes|
             && e == EntryAt(dis, j.bytes, e.at)
    requires EntryDone(j, e, f, n, |j.bytes|, lo, hi)
    ensures Treated(core, j.base, j.bytes, mode, n, e, f)
  {
    EntryFound(dis, core, j.bytes, e);
    assert EntryMeant(j.base, j.bytes, mode, em, (e, f).0, (e, f).1);
  }

  lemma EntryBehavesAsFound(decode: Decoder, dis: Disassembler, core: Core, base: U64, bytes: seq<Byte>, n: Memory,
                            lo: int, hi: int, teb: int, e: Entry, f: Fate)
    requires Faithful(dis, core) && Uniform(core) && 0 <= teb < 0x1_0000_0000 && e.at <= |bytes|
             && e == EntryAt(dis, bytes, e.at)
    requires Preserved(decode, base, |bytes|, n, lo, hi, teb, e, f)
    ensures BehavesAsFound(decode, core, base, bytes, n, lo, hi, teb, e, f)
  {
    EntryFound(dis, core, bytes, e);
    forall op, dst: Reg, disp, len: nat | Finds(core, bytes[e.at..], op, dst, disp, len)
      ensures BehavesAs(decode, base, |bytes|, n, lo, hi, teb, e.at, f, Access(op, dst, disp), len)
    {
      assert AccessOf(e.insn) == Access(op, dst, disp) && e.insn.length == len;
    }
  }

  /** An FS prefix among legacy prefixes is the only one. */
  lemma {:induction false} SkipSkips(b: nat -> Byte, p: nat)
    ensures p <= Skip(b, p) && forall i :: p <= i < Skip(b, p) ==> b(i) != 0x64
  {
  }

  lemma OneFsPrefix(core: Core, i: Instruction, s: nat -> Byte)
    requires Uniform(core) && IsAccess(i) && i.dst.Some? && Describes(core, i, s) && Legacy(i, s)
    ensures HasFsPrefix(i)
  {
    var p := Skip(s, 0);
    var d := Decoded(Original(AccessOf(i)), i.length);
    PrefixIsFs(core, s, d.insn.op, d.insn.dst, d.insn.src.disp, i.length);
    SkipSkips(s, 0);
    SkipSkips(s, p + 1);
    forall q | 0 <= q < |i.prefixes| && i.prefixes[q] == 0x64 ensures q == p { assert s(q) == i.prefixes[q]; }
    assert s(p) == i.prefixes[p];
    assert OnlyFs(i.prefixes, p);
  }

  /** The arena has room for a thunk exactly where the thunk can be planned. */
  lemma PlansExactly(arena: Arena, site: U64, i: Instruction, em: Emitter, teb: int)
    requires Encodes(em, teb) && IsAccess(i) && i.fsDisp.value != 0 && i.dst.Some? && NEAR_JUMP_SIZE <= i.length
    requires arena.used <= arena.size && arena.base + arena.size <= U64_MAX && site + i.length <= U64_MAX
    ensures PlanThunk(arena, site, i, em).Some? <==> Patchable(FsToTeb, Some(arena), site, AccessOf(i), i.length)
  {
    var at, acc, back := arena.base + arena.used, AccessOf(i), site + i.length;
    assert Plus(site, i.length) == back;
    assert em.build(acc, at, back) == BuildThunk(acc, teb, at, back);
    assert em.jump(site, at) == NearJump(site, at);
    JumpsExactly(site, at);
    BuildsExactly(acc, teb, at, back);
  }

  lemma JumpsExactly(site: U64, at: U64)
    requires site + NEAR_JUMP_SIZE <= U64_MAX
    ensures NearJump(site, at).Some? <==> Near(site + NEAR_JUMP_SIZE, at)
    ensures NearJump(site, at).Some? ==> |NearJump(site, at).value| == NEAR_JUMP_SIZE
  {
    assert Plus(site, NEAR_JUMP_SIZE) == site + NEAR_JUMP_SIZE;
  }

  lemma CanPatchExactly(dis: Disassembler, core: Core, b: seq<Byte>, i: Instruction, mode: Mode, em: Emitter, teb: int,
                        a: Option<Arena>, site: U64)
    requires Faithful(dis, core) && Uniform(core) && Encodes(em, teb) && dis(b) == Some(i) && IsAccess(i)
    requires site + i.length <= U64_MAX
    requires a.Some? ==> a.value.used <= a.value.size && a.value.base + a.value.size <= U64_MAX
    ensures i.dst.Some? && (CanPatch(mode, a, site, i, em) <==> Patchable(mode, a, site, AccessOf(i), i.length))
  {
    assert Legacy(i, Stream(b));
    assert Reported(dis(b), b, Stream(b));
    OneFsPrefix(core, i, Stream(b));
    PrefixIsShort(core, i, Stream(b));
    if a.Some? && i.fsDisp.value != 0 { PlansExactly(a.value, site, i, em, teb); }
  }

  lemma EntryServed(dis: Disassembler, core: Core, base: U64, bytes: seq<Byte>, mode: Mode, em: Emitter, teb: int,
                    a: Option<Arena>, e: Entry, f: Fate)
    requires Faithful(dis, core) && Uniform(core) && Encodes(em, teb) && e.at <= |bytes| && base + |bytes| <= U64_MAX
    requires e == EntryAt(dis, bytes, e.at) && Served(mode, em, base + e.at, e, f, a)
    requires a.Some? ==> a.value.used <= a.value.size && a.value.base + a.value.size <= U64_MAX
    ensures ServedAsFound(core, base, bytes, mode, a, e, f)
  {
    EntryFound(dis, core, bytes, e);
    if Accesses(e) { CanPatchExactly(dis, core, bytes[e.at..], e.insn, mode, em, teb, a, base + e.at); }
    forall op, dst: Reg, disp, len: nat | Finds(core, bytes[e.at..], op, dst, disp, len)
      ensures Unsupported(f.kind) <==> !Patchable(mode, a, base + e.at, Access(op, dst, disp), len)
    {
      assert AccessOf(e.insn) == Access(op, dst, disp) && e.insn.length == len;
    }
  }

  lemma {:induction false} EmittedGrows(fates: seq<Fate>, k: nat, n: nat)
    requires k <= n <= |fates|
    ensures Emitted(fates, k) <= Emitted(fates, n)
    decreases n
  {
    if k < n { EmittedGrows(fates, k, n - 1); }
  }

  // ---- The pass ---------------------------------------------------------

  function BytesAt(m: Memory, base: U64, size: nat): seq<Byte> {
    seq<Byte>(size, i requires 0 <= i => m(Plus(base, i)))
  }

  /** What a pass makes of a segment, where a faithful disassembler read it. */
  ghost predicate SegmentTreated(decode: Decoder, base: U64, bytes: seq<Byte>, mode: Mode, teb: int, n: Memory, lo: int,
                                 hi: int, entries: seq<Entry>, fates: seq<Fate>)
    requires 0 <= teb < 0x1_0000_0000
  {
    |entries| == |fates| && forall k :: 0 <= k < |entries| ==>
      && Treated(DecodeAt, base, bytes, mode, n, entries[k], fates[k])
      && (!Unsupported(fates[k].kind) ==>
            BehavesAsFound(decode, DecodeAt, base, bytes, n, lo, hi, teb, entries[k], fates[k]))
  }

  /** What a willing host grants: every access that can be patched, with the arena filled by the thunks before it. */
  ghost predicate SegmentServed(base: U64, bytes: seq<Byte>, mode: Mode, a: Option<Arena>, entries: seq<Entry>,
                                fates: seq<Fate>)
  {
    |entries| == |fates| && forall k :: 0 <= k < |entries| && entries[k].at <= |bytes| ==>
      ServedAsFound(DecodeAt, base, bytes, mode, Filled(a, Emitted(fates, k)), entries[k], fates[k])
  }

  lemma AllEntriesServed(dis: Disassembler, base: U64, bytes: seq<Byte>, mode: Mode, em: Emitter, teb: int,
                         entries: seq<Entry>, fates: seq<Fate>, a0: Option<Arena>, a: Option<Arena>)
    requires Faithful(dis, DecodeAt) && Uniform(DecodeAt) && Encodes(em, teb) && base + |bytes| <= U64_MAX
    requires Sweep(dis, bytes, 0, entries, |bytes|) && OnCourse(true, mode, em, base, entries, fates, a0, a)
    requires a.Some? ==> a.value.used <= a.value.size && a.value.base + a.value.size <= U64_MAX
    ensures SegmentServed(base, bytes, mode, a0, entries, fates)
  {
    forall k | 0 <= k < |entries| && entries[k].at <= |bytes|
      ensures ServedAsFound(DecodeAt, base, bytes, mode, Filled(a0, Emitted(fates, k)), entries[k], fates[k])
    {
      SweptEntry(dis, bytes, 0, entries, |bytes|, k);
      ArenaOnCourse(fates, k, a0, a);
      EntryServed(dis, DecodeAt, base, bytes, mode, em, teb, Filled(a0, Emitted(fates, k)), entries[k], fates[k]);
    }
  }

  /** What is in use of the arena after `k` entries is within it. */
  lemma ArenaOnCourse(fates: seq<Fate>, k: nat, a0: Option<Arena>, a: Option<Arena>)
    requires k <= |fates| && Grew(a0, a) && a == Filled(a0, Emitted(fates, |fates|))
    requires a.Some? ==> a.value.used <= a.value.size && a.value.base + a.value.size <= U64_MAX
    ensures var b := Filled(a0, Emitted(fates, k));
            b.Some? ==> b.value.used <= b.value.size && b.value.base + b.value.size <= U64_MAX
  {
    EmittedGrows(fates, k, |fates|);
  }

  lemma AllEntriesTreated(decode: Decoder, dis: Disassembler, j: Job, mode: Mode, em: Emitter, teb: int,
                          entries: seq<Entry>, fates: seq<Fate>, m: Memory, n: Memory, a: Option<Arena>,
                          b: Option<Arena>)
    requires Extends(decode, DecodeAt) && Uniform(DecodeAt) && Faithful(dis, DecodeAt) && ValidJob(j)
             && Exactly(j, mode, em) && Encodes(em, teb)
    requires Progress(dis, j, entries, fates, |j.bytes|, m, n, a, b)
    ensures SegmentTreated(decode, j.base, j.bytes, mode, teb, n, Used(a), Used(b), entries, fates)
  {
    forall k | 0 <= k < |entries|
      ensures Treated(DecodeAt, j.base, j.bytes, mode, n, entries[k], fates[k])
      ensures !Unsupported(fates[k].kind) ==>
                BehavesAsFound(decode, DecodeAt, j.base, j.bytes, n, Used(a), Used(b), teb, entries[k], fates[k])
    {
      SweptEntry(dis, j.bytes, 0, entries, |j.bytes|, k);
      EntryTreated(dis, DecodeAt, j, mode, em, entries[k], fates[k], n, Used(a), Used(b));
      if !Unsupported(fates[k].kind) {
        AgreeingUnderstood(DecodeAt, dis, j.bytes, mode, entries, |j.bytes|, k);
        PassPreserves(decode, DecodeAt, dis, j, mode, em, teb, entries, fates, m, n, a, b, k);
        EntryBehavesAsFound(decode, dis, DecodeAt, j.base, j.bytes, n, Used(a), Used(b), teb, entries[k], fates[k]);
      }
    }
  }

  /** Patching a segment with the x86-64 encodings: the entries sweep the bytes as they were, and every access that
      is rewritten behaves as it did. For a faithful disassembler, what becomes of an entry is told by what the machine
      finds in its bytes; if nothing is reported as unsupported, every access is rewritten; a willing host grants
      every access that can be patched. */
  method PatchSegment(patcher: Patcher, dis: Disassembler, base: U64, size: U64, viewed: bool, mode: Mode, em: Emitter,
                      ghost teb: int, ghost decode: Decoder)
    returns (report: Option<Report>, ghost entries: seq<Entry>, ghost fates: seq<Fate>)
    requires Extends(decode, DecodeAt) && WellFormed(dis) && Encodes(em, teb) && base + size <= U64_MAX
             && ArenaApart(patcher.arena, base, base + size)
    modifies patcher`asked, patcher`mem, patcher`arena
    ensures 0 < size && viewed ==>
              Sweep(dis, old(BytesAt(patcher.mem, base, size)), 0, entries, size) && |fates| == |entries|
    ensures 0 < size && viewed ==>
              forall k :: 0 <= k < |entries| && !Unsupported(fates[k].kind)
                          && Understood(DecodeAt, old(BytesAt(patcher.mem, base, size)), mode, entries[k]) ==>
                Preserved(decode, base, size, patcher.mem, Used(old(patcher.arena)), Used(patcher.arena), teb,
                          entries[k], fates[k])
    ensures 0 < size && viewed && Faithful(dis, DecodeAt) ==>
              SegmentTreated(decode, base, old(BytesAt(patcher.mem, base, size)), mode, teb, patcher.mem,
                             Used(old(patcher.arena)), Used(patcher.arena), entries, fates)
    ensures 0 < size && viewed && Faithful(dis, DecodeAt) && patcher.Willing() ==>
              SegmentServed(base, old(BytesAt(patcher.mem, base, size)), mode, old(patcher.arena), entries, fates)
    ensures report.Some? ==>
              0 < size && viewed
              && (report.value.unsupported == 0 <==> forall k :: 0 <= k < |fates| ==> !Unsupported(fates[k].kind))
    ensures patcher.Willing() ==> (report.Some? <==> 0 < size && viewed)
  {
    DecodeAtUniform();
    ghost var bytes := BytesAt(patcher.mem, base, size);
    ghost var j := JobExists(base, bytes, mode, em);
    report, entries, fates := patcher.PatchTcbAccesses(dis, base, size, viewed, mode, em, j);
    NoneFailed(fates, |fates|);
    if 0 < size && viewed {
      forall k | 0 <= k < |entries| && !Unsupported(fates[k].kind) && Understood(DecodeAt, bytes, mode, entries[k])
        ensures Preserved(decode, base, size, patcher.mem, Used(old(patcher.arena)), Used(patcher.arena), teb,
                          entries[k], fates[k])
      {
        PassPreserves(decode, DecodeAt, dis, j, mode, em, teb, entries, fates, old(patcher.mem), patcher.mem,
                      old(patcher.arena), patcher.arena, k);
      }
      if Faithful(dis, DecodeAt) {
        AllEntriesTreated(decode, dis, j, mode, em, teb, entries, fates, old(patcher.mem), patcher.mem,
                          old(patcher.arena), patcher.arena);
        if patcher.Willing() {
          AllEntriesServed(dis, base, bytes, mode, em, teb, entries, fates, old(patcher.arena), patcher.arena);
        }
      }
    }
  }
}
