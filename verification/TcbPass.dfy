/** After a pass that supports every access, the patched segment behaves as it did before. */
module TcbPass {
  import opened Base
  import opened X86
  import opened TcbThunk
  import opened TcbEquivalence
  import opened TcbInline
  import opened TcbScan

  // ---- A decoder for accesses with further prefixes ---------------------

  /** Prefixes without effect on a 64-bit operation: the other segments and, under REX.W, the operand size. */
  predicate Ignored(b: Byte) { b == 0x26 || b == 0x2e || b == 0x36 || b == 0x3e || b == 0x66 }

  predicate FsOrGs(b: Byte) { b == 0x64 || b == 0x65 }

  function SegmentOf(b: Byte): Segment { if b == 0x64 then Fs else Gs }

  /** The first index from `p` on without an ignored prefix; an instruction has at most 15 bytes. */
  function Skip(b: nat -> Byte, p: nat): (q: nat)
    ensures p <= q && forall i :: p <= i < q ==> Ignored(b(i))
    decreases 15 - p
  {
    if p < 15 && Ignored(b(p)) then Skip(b, p + 1) else p
  }

  /** A decoder of what follows the prefixes, at an index and under a segment. */
  type Core = (nat -> Byte, nat, Segment) -> Option<Decoded>

  /** A 64-bit operation whose FS or GS prefix may stand among ignored ones. */
  function DecodePrefixed(core: Core, b: nat -> Byte): Option<Decoded> {
    var p := Skip(b, 0);
    if !FsOrGs(b(p)) then None
    else match core(b, Skip(b, p + 1), SegmentOf(b(p)))
      case Some(Decoded(Op(op, dst, src), len)) => Some(Decoded(Op(op, dst, src), len))
      case _ => None
  }

  function DecodeLong(b: nat -> Byte): Option<Decoded> {
    if DecodePrefixed(DecodeAt, b).Some? then DecodePrefixed(DecodeAt, b) else Decode(b)
  }

  /** A machine that executes everything that either decoder describes. */
  ghost predicate Extends(decode: Decoder, core: Core) {
    && (forall b {:trigger DecodePrefixed(core, b)} :: DecodePrefixed(core, b).Some? ==>
                                                         decode(b) == DecodePrefixed(core, b))
    && (forall b {:trigger Decode(b)} :: Decode(b).Some? ==> decode(b) == Decode(b))
  }

  lemma IgnoredStops(b: nat -> Byte, p: nat, seg: Segment)
    requires Ignored(b(p))
    ensures DecodeAt(b, p, seg).None?
  {
  }

  /** Without ignored prefixes the two decoders agree. */
  lemma PrefixedIsPlain(b: nat -> Byte)
    requires FsOrGs(b(0)) && !Ignored(b(1)) && DecodePrefixed(DecodeAt, b).Some?
    ensures DecodePrefixed(DecodeAt, b) == Decode(b)
  {
    assert Skip(b, 0) == 0 && Skip(b, 1) == 1;
  }

  lemma LongIsPlain(b: nat -> Byte)
    requires Decode(b).Some? && DecodePrefixed(DecodeAt, b).Some?
    ensures DecodePrefixed(DecodeAt, b) == Decode(b)
  {
    if FsOrGs(b(0)) {
      if Ignored(b(1)) { IgnoredStops(b, 1, SegmentOf(b(0))); }
      PrefixedIsPlain(b);
    } else if Ignored(b(0)) {
      IgnoredStops(b, 0, Flat);
    }
  }

  /** There is such a machine. */
  lemma LongExtends()
    ensures Extends(DecodeLong, DecodeAt)
  {
    forall b | Decode(b).Some? ensures DecodeLong(b) == Decode(b) {
      if DecodePrefixed(DecodeAt, b).Some? { LongIsPlain(b); }
    }
  }

  lemma {:induction false} SkipSame(b: nat -> Byte, b': nat -> Byte, p: nat)
    requires forall i :: p <= i <= Skip(b, p) ==> b'(i) == b(i) || (i == Skip(b, p) && !Ignored(b'(i)))
    ensures Skip(b', p) == Skip(b, p)
    decreases 15 - p
  {
    if p < 15 && Ignored(b(p)) { SkipSame(b, b', p + 1); }
  }

  /** The operand fs:[disp] without base: a SIB byte and a displacement that ends the instruction. */
  lemma OperandForm(b: nat -> Byte, b': nat -> Byte, p: nat, seg: Segment, seg': Segment, r: bool, x: bool, h: bool,
                    m: ModRm)
    requires DecodeModRm(b, p, seg, r, x, h) == Some(m) && m.rm.InMem? && m.rm.base == NoBase
    requires b'(p) == b(p) && b'(p + 1) == b(p + 1)
    ensures m.next == p + 6 && m.rm.disp == Signed32(U32At(b, p + 2))
    ensures DecodeModRm(b', p, seg', r, x, h)
            == Some(ModRm(m.reg, InMem(seg', NoBase, Signed32(U32At(b', p + 2))), p + 6))
  {
  }

  predicate SameBytes(b: nat -> Byte, b': nat -> Byte, lo: nat, hi: int) { forall i :: lo <= i < hi ==> b'(i) == b(i) }

  /** The bytes of `op dst, seg:[disp]` before the displacement decide it up to the displacement and the segment. */
  ghost predicate Form(core: Core, b: nat -> Byte, b': nat -> Byte, p: nat, seg: Segment, seg': Segment,
                       op: Alu, dst: Reg, disp: int, len: nat)
  {
    core(b, p, seg) == Some(Decoded(Op(op, dst, InMem(seg, NoBase, disp)), len))
    && SameBytes(b, b', p, len - 4) ==>
      && p + 4 < len && disp == Signed32(U32At(b, len - 4))
      && core(b', p, seg') == Some(Decoded(Op(op, dst, InMem(seg', NoBase, Signed32(U32At(b', len - 4)))), len))
  }

  /** A memory operand carries the segment that was given. */
  ghost predicate Segmented(core: Core, b: nat -> Byte, p: nat, seg: Segment) {
    match core(b, p, seg) case Some(Decoded(Op(_, _, InMem(seg', _, _)), _)) => seg' == seg case _ => true
  }

  ghost predicate Uniform(core: Core) {
    && (forall b, p, seg :: Segmented(core, b, p, seg))
    && forall b, b', p: nat, seg, seg', op, dst, disp, len: nat :: Form(core, b, b', p, seg, seg', op, dst, disp, len)
  }

  /** The parts of a REX.W operation: where its ModRM byte is and which REX bits extend it. */
  datatype Parts = Parts(at: nat, r: bool, x: bool, h: bool)

  function PartsAt(b: nat -> Byte, p: nat): Parts {
    var hasRex := 0x40 <= b(p) < 0x50;
    var rex := if hasRex then b(p) % 16 else 0;
    Parts(if hasRex then p + 2 else p + 1, rex / 4 % 2 == 1, rex / 2 % 2 == 1, rex % 2 == 1)
  }

  lemma OpParts(b: nat -> Byte, p: nat, seg: Segment, op: Alu, dst: Reg, src: Operand, len: nat)
    requires DecodeAt(b, p, seg) == Some(Decoded(Op(op, dst, src), len))
    ensures var q := PartsAt(b, p);
            DecodeModRm(b, q.at, seg, q.r, q.x, q.h) == Some(ModRm(dst, src, len)) && q.at == p + 2
  {
  }

  lemma OpFrom(b: nat -> Byte, b': nat -> Byte, p: nat, seg: Segment, seg': Segment, op: Alu, dst: Reg, src: Operand,
               src': Operand, len: nat)
    requires DecodeAt(b, p, seg) == Some(Decoded(Op(op, dst, src), len)) && b'(p) == b(p) && b'(p + 1) == b(p + 1)
    requires var q := PartsAt(b, p); DecodeModRm(b', q.at, seg', q.r, q.x, q.h) == Some(ModRm(dst, src', len))
    ensures DecodeAt(b', p, seg') == Some(Decoded(Op(op, dst, src'), len))
  {
  }

  lemma AbsoluteForm(b: nat -> Byte, b': nat -> Byte, p: nat, seg: Segment, seg': Segment, op: Alu, dst: Reg, disp: int,
                     len: nat)
    requires DecodeAt(b, p, seg) == Some(Decoded(Op(op, dst, InMem(seg, NoBase, disp)), len))
             && SameBytes(b, b', p, len - 4)
    ensures p + 4 < len && disp == Signed32(U32At(b, len - 4))
    ensures DecodeAt(b', p, seg') == Some(Decoded(Op(op, dst, InMem(seg', NoBase, Signed32(U32At(b', len - 4)))), len))
  {
    var q, m := PartsAt(b, p), ModRm(dst, InMem(seg, NoBase, disp), len);
    OpParts(b, p, seg, op, dst, m.rm, len);
    OperandForm(b, b, q.at, seg, seg, q.r, q.x, q.h, m);
    OperandForm(b, b', q.at, seg, seg', q.r, q.x, q.h, m);
    OpFrom(b, b', p, seg, seg', op, dst, m.rm, InMem(seg', NoBase, Signed32(U32At(b', len - 4))), len);
  }

  lemma HasForm(b: nat -> Byte, b': nat -> Byte, p: nat, seg: Segment, seg': Segment, op: Alu, dst: Reg, disp: int,
                len: nat)
    ensures Form(DecodeAt, b, b', p, seg, seg', op, dst, disp, len)
  {
    if DecodeAt(b, p, seg) == Some(Decoded(Op(op, dst, InMem(seg, NoBase, disp)), len))
       && SameBytes(b, b', p, len - 4) {
      AbsoluteForm(b, b', p, seg, seg', op, dst, disp, len);
    }
  }

  lemma CarriesSegment(b: nat -> Byte, p: nat, seg: Segment)
    ensures Segmented(DecodeAt, b, p, seg)
  {
  }

  lemma DecodeAtUniform()
    ensures Uniform(DecodeAt)
  {
    forall b, p: nat, seg ensures Segmented(DecodeAt, b, p, seg) { CarriesSegment(b, p, seg); }
    forall b, b', p: nat, seg, seg', op, dst, disp, len: nat
      ensures Form(DecodeAt, b, b', p, seg, seg', op, dst, disp, len)
    {
      HasForm(b, b', p, seg, seg', op, dst, disp, len);
    }
  }

  /** `b` and `b'` agree on the first `len` bytes up to the segment prefix at `p` and the displacement. */
  predicate Resembles(b: nat -> Byte, b': nat -> Byte, p: nat, len: nat) {
    FsOrGs(b'(p)) && forall i :: 0 <= i < len - 4 && i != p ==> b'(i) == b(i)
  }

  /** An FS operation is decoded after its FS prefix. */
  lemma PrefixedParts(core: Core, b: nat -> Byte, op: Alu, dst: Reg, disp: int, len: nat)
    requires Uniform(core) && DecodePrefixed(core, b) == Some(Decoded(Op(op, dst, InMem(Fs, NoBase, disp)), len))
    ensures b(Skip(b, 0)) == 0x64
    ensures core(b, Skip(b, Skip(b, 0) + 1), Fs) == Some(Decoded(Op(op, dst, InMem(Fs, NoBase, disp)), len))
  {
    var p := Skip(b, 0);
    assert Segmented(core, b, Skip(b, p + 1), SegmentOf(b(p)));
  }

  lemma FormOf(core: Core, b: nat -> Byte, b': nat -> Byte, p: nat, seg: Segment, seg': Segment, op: Alu, dst: Reg,
               disp: int, len: nat)
    requires Uniform(core) && core(b, p, seg) == Some(Decoded(Op(op, dst, InMem(seg, NoBase, disp)), len))
    requires SameBytes(b, b', p, len - 4)
    ensures p + 4 < len && disp == Signed32(U32At(b, len - 4))
    ensures core(b', p, seg') == Some(Decoded(Op(op, dst, InMem(seg', NoBase, Signed32(U32At(b', len - 4)))), len))
  {
    assert Form(core, b, b', p, seg, seg', op, dst, disp, len);
  }

  lemma PrefixedForm(core: Core, b: nat -> Byte, b': nat -> Byte, op: Alu, dst: Reg, disp: int, len: nat)
    requires Uniform(core) && DecodePrefixed(core, b) == Some(Decoded(Op(op, dst, InMem(Fs, NoBase, disp)), len))
    requires Resembles(b, b', Skip(b, 0), len)
    ensures Skip(b, 0) + 5 < len && disp == Signed32(U32At(b, len - 4)) && b(Skip(b, 0)) == 0x64
    ensures DecodePrefixed(core, b')
            == Some(Decoded(Op(op, dst, InMem(SegmentOf(b'(Skip(b, 0))), NoBase, Signed32(U32At(b', len - 4)))), len))
  {
    var p := Skip(b, 0);
    PrefixedParts(core, b, op, dst, disp, len);
    FormOf(core, b, b', Skip(b, p + 1), Fs, SegmentOf(b'(p)), op, dst, disp, len);
    SkipSame(b, b', 0);
    SkipSame(b, b', p + 1);
  }

  // ---- The disassembler -------------------------------------------------

  /** The report `i` describes the instruction that the machine finds in `s`. */
  ghost predicate Describes(core: Core, i: Instruction, s: nat -> Byte)
    requires IsAccess(i) && i.dst.Some?
  {
    && DecodePrefixed(core, s) == Some(Decoded(Original(AccessOf(i)), i.length))
    && Skip(s, 0) < |i.prefixes| && Starts(s, i.prefixes) && (i.dispSize == 32 ==> i.dispOffset == i.length - 4)
  }

  /** An access with a general destination is reported for `b`, and `s` begins with its bytes. */
  ghost predicate Reported(r: Option<Instruction>, b: seq<Byte>, s: nat -> Byte) {
    r.Some? && IsAccess(r.value) && r.value.dst.Some? && r.value.length <= |b| && Starts(s, b[..r.value.length])
  }

  /** The disassembler reads accesses as the machine does, whatever follows them. */
  ghost predicate Agrees(dis: Disassembler, core: Core) {
    && WellFormed(dis)
    && forall b, s :: Reported(dis(b), b, s) ==> Describes(core, dis(b).value, s)
  }

  function Stream(b: seq<Byte>): nat -> Byte {
    (i: nat) => if i < |b| then b[i] else 0
  }

  /** The instruction's own bytes decide how it is decoded. */
  lemma SameForm(core: Core, t: nat -> Byte, s: nat -> Byte, op: Alu, dst: Reg, disp: int, len: nat)
    requires Uniform(core) && DecodePrefixed(core, t) == Some(Decoded(Op(op, dst, InMem(Fs, NoBase, disp)), len))
    requires SameBytes(t, s, 0, len)
    ensures Skip(t, 0) + 5 < len && DecodePrefixed(core, s) == DecodePrefixed(core, t) && Skip(s, 0) == Skip(t, 0)
  {
    PrefixIsFs(core, t, op, dst, disp, len);
    PrefixedForm(core, t, s, op, dst, disp, len);
    SkipSame(t, s, 0);
  }

  lemma PrefixIsFs(core: Core, t: nat -> Byte, op: Alu, dst: Reg, disp: int, len: nat)
    requires Uniform(core) && DecodePrefixed(core, t) == Some(Decoded(Op(op, dst, InMem(Fs, NoBase, disp)), len))
    ensures t(Skip(t, 0)) == 0x64 && Skip(t, 0) + 5 < len
  {
    PrefixedParts(core, t, op, dst, disp, len);
    PrefixedForm(core, t, t, op, dst, disp, len);
  }

  /** A disassembler of the accesses that the machine executes. */
  function Reference(core: Core, b: seq<Byte>): Option<Instruction> {
    var s := Stream(b);
    match DecodePrefixed(core, s)
    case Some(Decoded(Op(op, dst, InMem(Fs, NoBase, disp)), len)) =>
      if len <= |b| && len <= 15 && Skip(s, 0) + 5 < len
      then Some(Instruction(len, Some(op), true, Some(dst), Some(disp), b[..Skip(s, 0) + 1], len - 4, 32)) else None
    case _ => None
  }

  lemma ReferenceReads(core: Core, b: seq<Byte>, s: nat -> Byte)
    requires Uniform(core) && Reported(Reference(core, b), b, s)
    ensures Describes(core, Reference(core, b).value, s)
  {
    var t, i := Stream(b), Reference(core, b).value;
    var w := b[..i.length];
    forall k | 0 <= k < i.length ensures s(k) == t(k) { assert s(k) == w[k]; }
    SameForm(core, t, s, i.op.value, i.dst.value, i.fsDisp.value, i.length);
  }

  /** Some disassembler reads accesses as the machine does. */
  lemma ReferenceAgrees()
    ensures Agrees(b => Reference(DecodeAt, b), DecodeAt)
  {
    DecodeAtUniform();
    forall b, s | Reported(Reference(DecodeAt, b), b, s) ensures Describes(DecodeAt, Reference(DecodeAt, b).value, s) {
      ReferenceReads(DecodeAt, b, s);
    }
  }

  /** The FS prefix that the patcher looks for is the one that the machine obeys. */
  lemma SamePrefix(core: Core, i: Instruction, s: nat -> Byte, p: nat)
    requires Uniform(core) && IsAccess(i) && i.dst.Some? && Describes(core, i, s) && OnlyFs(i.prefixes, p)
    ensures p == Skip(s, 0)
  {
    var d := Decoded(Original(AccessOf(i)), i.length);
    PrefixIsFs(core, s, d.insn.op, d.insn.dst, d.insn.src.disp, i.length);
    assert i.prefixes[Skip(s, 0)] == 0x64;
  }

  // ---- Each kind of patch -----------------------------------------------

  /** What the machine must keep for an access to be patched soundly. */
  ghost predicate Kept(c: Cpu, acc: Access, teb: int, f: Fate)
    requires 0 <= teb < 0x1_0000_0000
  {
    match f.kind
    case Prefixed => c.gs == c.fs
    case Inlined => Mirrors(c, teb)
    case _ => Ready(c, acc, teb, f.thunk, |f.code|)
  }

  function Steps(f: Fate, acc: Access, teb: int): nat
    requires 0 <= teb < 0x1_0000_0000 && acc.offset < TCB_SIZE
  {
    if f.kind == Trampoline && acc.offset != 0 then |BodyLines(acc, teb)| + 2 else 1
  }

  /** From `c`, the patched access ends where the original would; only CMP and XOR through a thunk leave
      anything else, the 8 saved bytes under the red zone. */
  ghost predicate Behaves(decode: Decoder, c: Cpu, f: Fate, acc: Access, teb: int, length: nat)
    requires 0 <= teb < 0x1_0000_0000 && acc.offset < TCB_SIZE
  {
    var o := Exec(c, Original(acc), Plus(c.rip, length));
    var end := Run(decode, c, Steps(f, acc, teb));
    && end.Some? && end.value == o.(mem := end.value.mem)
    && forall x: U64 :: !Within8(x, Saved(c)) || acc.op == Mov || f.kind != Trampoline ==> end.value.mem(x) == o.mem(x)
  }

  lemma StepBehaves(decode: Decoder, c: Cpu, f: Fate, acc: Access, src: Operand, teb: int, length: nat)
    requires 0 <= teb < 0x1_0000_0000 && acc.offset < TCB_SIZE && f.kind != Trampoline
    requires decode(Fetch(c.mem, c.rip)) == Some(Decoded(Op(acc.op, acc.dst, src), length))
    requires Read(c, src, Plus(c.rip, length)) == Load64(c.mem, Plus(c.fs, acc.offset))
    ensures Behaves(decode, c, f, acc, teb, length)
  {
    var next := Plus(c.rip, length);
    OriginalReads(c, acc.offset, next);
    var d := Exec(c, Original(acc), next);
    assert Step(decode, c) == Some(d);
    assert Run(decode, d, 0) == Some(d);
  }

  /** A patch in place turns the access into the same operation on gs:[...]. */
  lemma InPlaceDecodes(decode: Decoder, core: Core, op: Alu, dst: Reg, disp: int, len: nat, s: nat -> Byte,
                       b: nat -> Byte)
    requires Extends(decode, core) && Uniform(core)
    requires DecodePrefixed(core, s) == Some(Decoded(Op(op, dst, InMem(Fs, NoBase, disp)), len))
    requires Resembles(s, b, Skip(s, 0), len) && b(Skip(s, 0)) == 0x65
    ensures len >= 4 && disp == Signed32(U32At(s, len - 4))
    ensures decode(b) == Some(Decoded(Op(op, dst, InMem(Gs, NoBase, Signed32(U32At(b, len - 4)))), len))
  {
    PrefixedForm(core, s, b, op, dst, disp, len);
  }

  lemma SharedBaseRead(c: Cpu, offset: nat, next: U64)
    requires c.gs == c.fs
    ensures Read(c, InMem(Gs, NoBase, offset), next) == Load64(c.mem, Plus(c.fs, offset))
  {
  }

  lemma SlotRead(c: Cpu, teb: int, next: U64)
    requires 0 <= teb < 0x1_0000_0000 && Mirrors(c, teb)
    ensures Read(c, InMem(Gs, NoBase, Signed32(teb)), next) == Load64(c.mem, Plus(c.fs, 0))
  {
  }

  /** The machine finds the patched bytes. */
  lemma FindsPrefixed(core: Core, i: Instruction, was: seq<Byte>, b: nat -> Byte, p: nat)
    requires Uniform(core) && IsAccess(i) && i.dst.Some? && |was| == i.length && Describes(core, i, Stream(was))
    requires OnlyFs(i.prefixes, p) && p < |was| && Starts(b, was[p := 0x65])
    ensures p == Skip(Stream(was), 0) && b(p) == 0x65 && Resembles(Stream(was), b, p, i.length) && i.length >= 4
    ensures U32At(b, i.length - 4) == U32At(Stream(was), i.length - 4)
  {
    SamePrefix(core, i, Stream(was), p);
    PrefixIsShort(core, i, Stream(was));
    forall k | 0 <= k < |was| ensures b(k) == if k == p then 0x65 else Stream(was)(k) {
      assert b(k) == was[p := 0x65][k];
    }
  }

  lemma PrefixedDecodes(decode: Decoder, core: Core, i: Instruction, was: seq<Byte>, b: nat -> Byte, p: nat)
    requires Extends(decode, core) && Uniform(core) && IsAccess(i) && i.dst.Some? && |was| == i.length
    requires Describes(core, i, Stream(was)) && OnlyFs(i.prefixes, p) && p < |was| && Starts(b, was[p := 0x65])
    ensures decode(b) == Some(Decoded(Op(i.op.value, i.dst.value, InMem(Gs, NoBase, i.fsDisp.value)), i.length))
  {
    FindsPrefixed(core, i, was, b, p);
    InPlaceDecodes(decode, core, i.op.value, i.dst.value, i.fsDisp.value, i.length, Stream(was), b);
  }

  lemma PrefixedBehaves(decode: Decoder, core: Core, i: Instruction, was: seq<Byte>, f: Fate, teb: int, c: Cpu, p: nat)
    requires Extends(decode, core) && Uniform(core) && 0 <= teb < 0x1_0000_0000 && f.kind == Prefixed && IsAccess(i)
             && i.dst.Some?
    requires |was| == i.length && Describes(core, i, Stream(was)) && CodeAt(c.mem, c.rip, f.bytes) && c.gs == c.fs
    requires OnlyFs(i.prefixes, p) && p < |was| && f.bytes == was[p := 0x65]
    ensures Behaves(decode, c, f, AccessOf(i), teb, i.length)
  {
    Begins(c.mem, c.rip, f.bytes);
    PrefixedDecodes(decode, core, i, was, Fetch(c.mem, c.rip), p);
    SharedBaseRead(c, i.fsDisp.value, Plus(c.rip, i.length));
    StepBehaves(decode, c, f, AccessOf(i), InMem(Gs, NoBase, i.fsDisp.value), teb, i.length);
  }

  lemma PrefixIsShort(core: Core, i: Instruction, s: nat -> Byte)
    requires Uniform(core) && IsAccess(i) && i.dst.Some? && Describes(core, i, s)
    ensures Skip(s, 0) + 5 < i.length
  {
    var d := Decoded(Original(AccessOf(i)), i.length);
    PrefixIsFs(core, s, d.insn.op, d.insn.dst, d.insn.src.disp, i.length);
  }

  lemma FindsInlined(core: Core, i: Instruction, was: seq<Byte>, b: nat -> Byte, p: nat, teb: int)
    requires Uniform(core) && 0 <= teb < 0x1_0000_0000 && IsAccess(i) && i.dst.Some? && |was| == i.length
             && Describes(core, i, Stream(was))
    requires i.dispSize == 32 && i.dispOffset + 4 <= |was|
    requires OnlyFs(i.prefixes, p) && p < |was| && Starts(b, Spliced(was[p := 0x65], i.dispOffset, Le32(teb)))
    ensures p == Skip(Stream(was), 0) && b(p) == 0x65 && Resembles(Stream(was), b, p, i.length) && i.length >= 4
    ensures U32At(b, i.length - 4) == teb
  {
    SamePrefix(core, i, Stream(was), p);
    PrefixIsShort(core, i, Stream(was));
    var w := Spliced(was[p := 0x65], i.dispOffset, Le32(teb));
    forall k | 0 <= k < i.length - 4 ensures b(k) == if k == p then 0x65 else Stream(was)(k) { assert b(k) == w[k]; }
    ReadsLe32(b, i.length - 4, teb) by {
      forall k | 0 <= k < 4 ensures b(i.length - 4 + k) == Le32(teb)[k] {
        assert b(i.length - 4 + k) == w[i.length - 4 + k];
      }
    }
  }

  lemma InlinedDecodes(decode: Decoder, core: Core, i: Instruction, was: seq<Byte>, b: nat -> Byte, p: nat, teb: int)
    requires Extends(decode, core) && Uniform(core) && IsAccess(i) && i.dst.Some? && |was| == i.length
    requires 0 <= teb < 0x1_0000_0000 && i.dispSize == 32 && i.dispOffset + 4 <= |was|
             && Describes(core, i, Stream(was))
    requires OnlyFs(i.prefixes, p) && p < |was| && Starts(b, Spliced(was[p := 0x65], i.dispOffset, Le32(teb)))
    ensures decode(b) == Some(Decoded(Op(i.op.value, i.dst.value, InMem(Gs, NoBase, Signed32(teb))), i.length))
  {
    FindsInlined(core, i, was, b, p, teb);
    InPlaceDecodes(decode, core, i.op.value, i.dst.value, i.fsDisp.value, i.length, Stream(was), b);
  }

  lemma InlinedBehaves(decode: Decoder, core: Core, i: Instruction, was: seq<Byte>, f: Fate, teb: int, c: Cpu, p: nat)
    requires Extends(decode, core) && Uniform(core) && 0 <= teb < 0x1_0000_0000 && f.kind == Inlined && IsAccess(i)
             && i.dst.Some?
    requires |was| == i.length && Describes(core, i, Stream(was)) && CodeAt(c.mem, c.rip, f.bytes) && Mirrors(c, teb)
    requires i.fsDisp == Some(0) && i.dispSize == 32 && i.dispOffset + 4 <= |was|
    requires OnlyFs(i.prefixes, p) && p < |was| && f.bytes == Spliced(was[p := 0x65], i.dispOffset, Le32(teb))
    ensures Behaves(decode, c, f, AccessOf(i), teb, i.length)
  {
    Begins(c.mem, c.rip, f.bytes);
    InlinedDecodes(decode, core, i, was, Fetch(c.mem, c.rip), p, teb);
    SlotRead(c, teb, Plus(c.rip, i.length));
    StepBehaves(decode, c, f, AccessOf(i), InMem(Gs, NoBase, Signed32(teb)), teb, i.length);
  }

  lemma ExtendedReads(decode: Decoder, core: Core, a: Access, teb: int)
    requires Extends(decode, core) && Uniform(core) && 0 <= teb < 0x1_0000_0000 && 0 < a.offset < TCB_SIZE
    ensures Reads(decode, a, teb)
  {
    DecoderReads(a, teb);
    forall l | Sound(Decode, l) ensures Sound(decode, l) {
      forall b | Starts(b, l.bytes) ensures decode(b) == Some(Decoded(l.insn, |l.bytes|)) { assert Decode(b).Some?; }
    }
  }

  lemma TrampolineBehaves(decode: Decoder, core: Core, mode: Mode, em: Emitter, i: Instruction, was: seq<Byte>, f: Fate,
                          teb: int, c: Cpu)
    requires Extends(decode, core) && Uniform(core) && Encodes(em, teb) && f.kind == Trampoline
             && Meant(mode, em, i, was, c.rip, f)
    requires Holds(c.mem, c.rip, f) && Ready(c, AccessOf(i), teb, f.thunk, |f.code|)
    ensures Behaves(decode, c, f, AccessOf(i), teb, i.length)
  {
    var acc, back := AccessOf(i), Plus(c.rip, i.length);
    JumpIsThere(c, f, i.length);
    ExtendedReads(decode, core, acc, teb);
    PatchedRuns(decode, c, acc, teb, f.thunk, back);
    SameOriginal(c, c, acc, back);
  }

  // ---- The pass ---------------------------------------------------------

  /** `m` holds the patched segment and the thunks of `n`; elsewhere the guest may have written. */
  ghost predicate Carries(m: Memory, n: Memory, base: U64, size: nat, lo: int, hi: int) {
    Agree(n, m, base, base + size) && Agree(n, m, lo, hi)
  }

  /** The patched access behaves as the original from every state that keeps what its patch relies on. */
  ghost predicate Preserved(decode: Decoder, base: U64, size: nat, n: Memory, lo: int, hi: int, teb: int, e: Entry,
                            f: Fate)
    requires 0 <= teb < 0x1_0000_0000
  {
    Accesses(e) && e.insn.dst.Some? ==>
      var acc := AccessOf(e.insn);
      forall c: Cpu :: c.rip == base + e.at && Carries(c.mem, n, base, size, lo, hi) && Kept(c, acc, teb, f)
                       ==> Behaves(decode, c, f, acc, teb, e.insn.length)
  }

  lemma DescribesWas(core: Core, dis: Disassembler, bytes: seq<Byte>, e: Entry)
    requires Agrees(dis, core) && e.at <= |bytes| && e == EntryAt(dis, bytes, e.at) && Accesses(e) && e.insn.dst.Some?
    ensures e.at + Extent(e) <= |bytes| && Describes(core, e.insn, Stream(bytes[e.at..e.at + Extent(e)]))
  {
    var rest := bytes[e.at..];
    assert dis(rest) == Some(e.insn);
    assert bytes[e.at..e.at + e.insn.length] == rest[..e.insn.length];
    assert Reported(dis(rest), rest, Stream(rest[..e.insn.length]));
  }

  lemma {:induction false} SweptEntry(dis: Disassembler, bytes: seq<Byte>, at: nat, entries: seq<Entry>, end: nat,
                                      k: nat)
    requires Sweep(dis, bytes, at, entries, end) && k < |entries|
    ensures entries[k].at <= |bytes| && entries[k] == EntryAt(dis, bytes, entries[k].at)
    decreases |entries|
  {
    if k > 0 { SweptEntry(dis, bytes, at + Extent(entries[0]), entries[1..], end, k - 1); }
  }

  lemma FateBehaves(decode: Decoder, core: Core, mode: Mode, em: Emitter, i: Instruction, was: seq<Byte>, f: Fate,
                    teb: int, c: Cpu)
    requires Extends(decode, core) && Uniform(core) && Encodes(em, teb) && !Unsupported(f.kind) && IsAccess(i)
             && Meant(mode, em, i, was, c.rip, f) && i.dst.Some?
    requires |was| == i.length && (f.kind == Trampoline || Describes(core, i, Stream(was))) && Holds(c.mem, c.rip, f)
             && Kept(c, AccessOf(i), teb, f)
    ensures Behaves(decode, c, f, AccessOf(i), teb, i.length)
  {
    match f.kind
    case Prefixed =>
      var p: nat :| OnlyFs(i.prefixes, p) && p < |was| && f.bytes == was[p := 0x65];
      PrefixedBehaves(decode, core, i, was, f, teb, c, p);
    case Inlined =>
      var p: nat :| OnlyFs(i.prefixes, p) && p < |was| && f.bytes == Spliced(was[p := 0x65], i.dispOffset, em.teb);
      InlinedBehaves(decode, core, i, was, f, teb, c, p);
    case Trampoline => TrampolineBehaves(decode, core, mode, em, i, was, f, teb, c);
    case _ =>
  }

  lemma EntryPreserved(decode: Decoder, core: Core, j: Job, mode: Mode, em: Emitter, teb: int, e: Entry, f: Fate,
                       was: seq<Byte>, n: Memory, lo: int, hi: int)
    requires Extends(decode, core) && Uniform(core) && Encodes(em, teb) && ValidJob(j) && hi <= U64_MAX
             && !Unsupported(f.kind)
    requires EntryDone(j, e, f, n, |j.bytes|, lo, hi) && Accesses(e) && e.insn.dst.Some?
    requires |was| == Extent(e) && Meant(mode, em, e.insn, was, j.base + e.at, f)
             && (f.kind == Trampoline || Describes(core, e.insn, Stream(was)))
    ensures Preserved(decode, j.base, |j.bytes|, n, lo, hi, teb, e, f)
  {
    var base, size := j.base, |j.bytes|;
    assert e.at + Extent(e) <= size && Placed(f, Extent(e), lo, hi) && Holds(n, base + e.at, f);
    forall c: Cpu | c.rip == base + e.at && Carries(c.mem, n, base, size, lo, hi) && Kept(c, AccessOf(e.insn), teb, f)
      ensures Behaves(decode, c, f, AccessOf(e.insn), teb, e.insn.length)
    {
      EntryBehaves(decode, core, mode, em, teb, e, f, was, n, base, size, lo, hi, c);
    }
  }

  lemma EntryBehaves(decode: Decoder, core: Core, mode: Mode, em: Emitter, teb: int, e: Entry, f: Fate, was: seq<Byte>,
                     n: Memory, base: U64, size: nat, lo: int, hi: int, c: Cpu)
    requires Extends(decode, core) && Uniform(core) && Encodes(em, teb) && hi <= U64_MAX && base + size <= U64_MAX
    requires e.at + Extent(e) <= size && Placed(f, Extent(e), lo, hi) && Holds(n, base + e.at, f)
    requires Accesses(e) && e.insn.dst.Some? && !Unsupported(f.kind) && |was| == Extent(e)
    requires Meant(mode, em, e.insn, was, base + e.at, f)
             && (f.kind == Trampoline || Describes(core, e.insn, Stream(was)))
    requires c.rip == base + e.at && Carries(c.mem, n, base, size, lo, hi) && Kept(c, AccessOf(e.insn), teb, f)
    ensures Behaves(decode, c, f, AccessOf(e.insn), teb, e.insn.length)
  {
    HoldsOn(f, n, c.mem, base + e.at, Extent(e), lo, hi);
    FateBehaves(decode, core, mode, em, e.insn, was, f, teb, c);
  }

  /** The access is patched where it stands, not through a thunk. */
  predicate InPlace(mode: Mode, i: Instruction) { mode == FsToGs || i.fsDisp == Some(0) }

  /** If the entry is to be patched in place, the machine finds in its bytes what the disassembler reports. */
  ghost predicate Understood(core: Core, bytes: seq<Byte>, mode: Mode, e: Entry) {
    Accesses(e) && e.insn.dst.Some? && InPlace(mode, e.insn) ==>
      e.at + Extent(e) <= |bytes| && Describes(core, e.insn, Stream(bytes[e.at..e.at + Extent(e)]))
  }

  /** A disassembler that reads accesses as the machine does is understood throughout. */
  lemma AgreeingUnderstood(core: Core, dis: Disassembler, bytes: seq<Byte>, mode: Mode, entries: seq<Entry>, end: nat,
                           k: nat)
    requires Agrees(dis, core) && Sweep(dis, bytes, 0, entries, end) && k < |entries|
    ensures Understood(core, bytes, mode, entries[k])
  {
    SweptEntry(dis, bytes, 0, entries, end, k);
    if Accesses(entries[k]) && entries[k].insn.dst.Some? { DescribesWas(core, dis, bytes, entries[k]); }
  }

  /** The pass preserves the behaviour of every access that it rewrites, whatever becomes of the others. */
  lemma PassPreserves(decode: Decoder, core: Core, dis: Disassembler, j: Job, mode: Mode, em: Emitter, teb: int,
                      entries: seq<Entry>, fates: seq<Fate>, m: Memory, n: Memory,
                      a: Option<Arena>, b: Option<Arena>, k: nat)
    requires Extends(decode, core) && Uniform(core) && ValidJob(j) && Exactly(j, mode, em) && Encodes(em, teb)
    requires Progress(dis, j, entries, fates, |j.bytes|, m, n, a, b) && k < |entries|
    requires !Unsupported(fates[k].kind) && Understood(core, j.bytes, mode, entries[k])
    ensures Preserved(decode, j.base, |j.bytes|, n, Used(a), Used(b), teb, entries[k], fates[k])
  {
    DonePreserved(decode, core, j, mode, em, teb, entries[k], fates[k], n, Used(a), Used(b)) by {
      assert EntryDone(j, entries[k], fates[k], n, |j.bytes|, Used(a), Used(b));
    }
  }

  lemma DonePreserved(decode: Decoder, core: Core, j: Job, mode: Mode, em: Emitter, teb: int, e: Entry, f: Fate,
                      n: Memory, lo: int, hi: int)
    requires Extends(decode, core) && Uniform(core) && ValidJob(j) && Exactly(j, mode, em) && Encodes(em, teb)
    requires hi <= U64_MAX && EntryDone(j, e, f, n, |j.bytes|, lo, hi) && !Unsupported(f.kind)
    requires Understood(core, j.bytes, mode, e)
    ensures Preserved(decode, j.base, |j.bytes|, n, lo, hi, teb, e, f)
  {
    if Accesses(e) && e.insn.dst.Some? {
      MeantIn(j, mode, em, e, f);
      EntryPreserved(decode, core, j, mode, em, teb, e, f, j.bytes[e.at..e.at + Extent(e)], n, lo, hi);
    }
  }
}
