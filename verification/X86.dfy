/**
 A byte-level decoder and a register, flag and memory semantics for the x86-64
 instructions that the guest patcher and the late-import thunks emit.
 */
module X86 {
  import opened Base

  type Reg = x: int | 0 <= x < 16
  type Memory = U64 -> Byte
  type Regs = s: seq<U64> | |s| == 16 witness seq(16, _ => 0)

  const RAX: Reg := 0
  const RBX: Reg := 3
  const RSP: Reg := 4
  const R10: Reg := 10
  const R11: Reg := 11

  datatype Flags = Flags(cf: bool, pf: bool, af: bool, zf: bool, sf: bool, of: bool)

  /** `fs` and `gs` are the segment bases. */
  datatype Cpu = Cpu(regs: Regs, flags: Flags, rip: U64, fs: U64, gs: U64, mem: Memory)

  datatype Segment = Flat | Fs | Gs
  datatype BaseReg = NoBase | Base(r: Reg) | Rip
  datatype Operand = InReg(r: Reg) | InMem(seg: Segment, base: BaseReg, disp: int)
  datatype Alu = Mov | Cmp | Xor

  datatype Insn =
    | Op(op: Alu, dst: Reg, src: Operand)      // 64-bit op dst, src
    | Lea(dst: Reg, base: BaseReg, disp: int)
    | Push(r: Reg)
    | Pop(r: Reg)
    | Jmp(disp: int)
    | JmpReg(r: Reg)
    | TestReg(r: Reg)                          // test r, r
    | Jnz(disp: int)

  // ---- Words ------------------------------------------------------------

  /** Reduction modulo 2^64, one turn at a time. */
  function Wrap(x: int): U64
    decreases if 0 <= x < 0x1_0000_0000_0000_0000 then 0 else if x < 0 then -x else x
  {
    if x < 0 then Wrap(x + 0x1_0000_0000_0000_0000)
    else if x < 0x1_0000_0000_0000_0000 then x
    else Wrap(x - 0x1_0000_0000_0000_0000)
  }

  lemma {:induction false} WrapIsMod(x: int)
    ensures Wrap(x) == x % 0x1_0000_0000_0000_0000
    decreases if 0 <= x < 0x1_0000_0000_0000_0000 then 0 else if x < 0 then -x else x
  {
    if x < 0 { WrapIsMod(x + 0x1_0000_0000_0000_0000); }
    else if x >= 0x1_0000_0000_0000_0000 { WrapIsMod(x - 0x1_0000_0000_0000_0000); }
  }

  /** Address arithmetic modulo 2^64. */
  function Plus(a: U64, i: int): U64 { Wrap(a + i) }

  /** The value of a `bits`-wide two's-complement field. */
  function Signed8(v: Byte): int { if v < 0x80 then v else v - 0x100 }
  function Signed32(v: int): int
    requires 0 <= v < 0x1_0000_0000
  { if v < 0x8000_0000 then v else v - 0x1_0000_0000 }

  /** Little-endian bytes of a 32-bit word. */
  function Le32(v: int): (s: seq<Byte>)
    requires 0 <= v < 0x1_0000_0000
    ensures |s| == 4 && v == s[0] as int + 256 * (s[1] as int + 256 * (s[2] as int + 256 * s[3] as int))
  {
    var v1 := v / 256;
    var v2 := v1 / 256;
    [v % 256, v1 % 256, v2 % 256, v2 / 256]
  }

  function U32At(b: nat -> Byte, p: nat): (v: int)
    ensures 0 <= v < 0x1_0000_0000
  {
    b(p) as int + 256 * (b(p + 1) as int + 256 * (b(p + 2) as int + 256 * b(p + 3) as int))
  }

  function ByteOf(v: U64, i: nat): Byte
    requires i < 8
  {
    if i == 0 then v % 256 else ByteOf(v / 256, i - 1)
  }

  /** Little-endian load of 8 bytes, wrapping at the top of the address space. */
  function Load64(m: Memory, a: U64): U64 { LoadTail(m, a, 0) }

  function LoadTail(m: Memory, a: U64, i: nat): (v: U64)
    requires i <= 8
    decreases a, 8 - i
  {
    if i == 8 then 0 else Wrap(m(Plus(a, i)) + 256 * LoadTail(m, a, i + 1))
  }

  /** `x` is one of the 8 bytes at `a`. */
  predicate Within8(x: U64, a: U64) { Plus(x, -(a as int)) < 8 }

  function Store64(m: Memory, a: U64, v: U64): Memory {
    (x: U64) => if Within8(x, a) then ByteOf(v, Plus(x, -(a as int))) else m(x)
  }

  // ---- Decoder ----------------------------------------------------------

  /** The ModRM operand at `p`: register field, operand, and the index after it. */
  datatype ModRm = ModRm(reg: Reg, rm: Operand, next: nat)

  function DecodeModRm(b: nat -> Byte, p: nat, seg: Segment, rexR: bool, rexX: bool, rexB: bool): Option<ModRm> {
    var mod, reg, rm := b(p) / 64, b(p) / 8 % 8, b(p) % 8;
    var r: Reg := reg + (if rexR then 8 else 0);
    var hi := if rexB then 8 else 0;
    if mod == 3 then Some(ModRm(r, InReg(rm + hi), p + 1))
    else if rm == 4 then
      // SIB byte: only the form without an index register is emitted
      var sib := b(p + 1);
      if sib / 8 % 8 != 4 || rexX then None
      else if mod == 0 && sib % 8 == 5 then Some(ModRm(r, InMem(seg, NoBase, Signed32(U32At(b, p + 2))), p + 6))
      else if mod == 0 then Some(ModRm(r, InMem(seg, Base(sib % 8 + hi), 0), p + 2))
      else if mod == 1 then Some(ModRm(r, InMem(seg, Base(sib % 8 + hi), Signed8(b(p + 2))), p + 3))
      else Some(ModRm(r, InMem(seg, Base(sib % 8 + hi), Signed32(U32At(b, p + 2))), p + 6))
    else if mod == 0 && rm == 5 then Some(ModRm(r, InMem(seg, Rip, Signed32(U32At(b, p + 1))), p + 5))
    else if mod == 0 then Some(ModRm(r, InMem(seg, Base(rm + hi), 0), p + 1))
    else if mod == 1 then Some(ModRm(r, InMem(seg, Base(rm + hi), Signed8(b(p + 1))), p + 2))
    else Some(ModRm(r, InMem(seg, Base(rm + hi), Signed32(U32At(b, p + 1))), p + 5))
  }

  datatype Decoded = Decoded(insn: Insn, len: nat)

  function AluOf(opcode: Byte): Option<Alu> {
    if opcode == 0x8b then Some(Mov)
    else if opcode == 0x3b then Some(Cmp)
    else if opcode == 0x33 then Some(Xor)
    else None
  }

  /** Decode after the segment prefix; `p` is the index of the REX byte or opcode. */
  function DecodeAt(b: nat -> Byte, p: nat, seg: Segment): Option<Decoded> {
    var hasRex := 0x40 <= b(p) < 0x50;
    var rex, q := if hasRex then b(p) % 16 else 0, if hasRex then p + 1 else p;
    var rexW, rexR, rexX, rexB := rex / 8 % 2 == 1, rex / 4 % 2 == 1, rex / 2 % 2 == 1, rex % 2 == 1;
    var opcode := b(q);
    if rexW && (AluOf(opcode).Some? || opcode == 0x8d || opcode == 0x85) then
      match DecodeModRm(b, q + 1, seg, rexR, rexX, rexB)
      case None => None
      case Some(m) =>
        if AluOf(opcode).Some? then Some(Decoded(Op(AluOf(opcode).value, m.reg, m.rm), m.next))
        else if opcode == 0x8d && m.rm.InMem? then Some(Decoded(Lea(m.reg, m.rm.base, m.rm.disp), m.next))
        else if opcode == 0x85 && m.rm == InReg(m.reg) then Some(Decoded(TestReg(m.reg), m.next))
        else None
    else if 0x50 <= opcode < 0x58 then Some(Decoded(Push(opcode - 0x50 + (if rexB then 8 else 0)), q + 1))
    else if 0x58 <= opcode < 0x60 then Some(Decoded(Pop(opcode - 0x58 + (if rexB then 8 else 0)), q + 1))
    else if opcode == 0xe9 then Some(Decoded(Jmp(Signed32(U32At(b, q + 1))), q + 5))
    else if opcode == 0x75 then Some(Decoded(Jnz(Signed8(b(q + 1))), q + 2))
    else if opcode == 0xff then
      match DecodeModRm(b, q + 1, seg, false, rexX, rexB)
      case Some(ModRm(4, InReg(r), next)) => Some(Decoded(JmpReg(r), next))
      case _ => None
    else None
  }

  /** Decode the instruction whose bytes are b(0), b(1), ... */
  function Decode(b: nat -> Byte): Option<Decoded> {
    if b(0) == 0x64 then DecodeAt(b, 1, Fs)
    else if b(0) == 0x65 then DecodeAt(b, 1, Gs)
    else DecodeAt(b, 0, Flat)
  }

  // ---- Semantics --------------------------------------------------------

  function SegBase(c: Cpu, seg: Segment): U64 {
    match seg case Flat => 0 case Fs => c.fs case Gs => c.gs
  }

  function BaseValue(c: Cpu, base: BaseReg, next: U64): U64 {
    match base case NoBase => 0 case Base(r) => c.regs[r] case Rip => next
  }

  function Read(c: Cpu, src: Operand, next: U64): U64 {
    match src
    case InReg(r) => c.regs[r]
    case InMem(seg, base, disp) => Load64(c.mem, Plus(SegBase(c, seg), BaseValue(c, base, next) + disp))
  }

  function Parity(v: int, bits: nat): bool
    requires v >= 0
    decreases bits, v
  {
    if bits == 0 then true else (v % 2 == 0) == Parity(v / 2, bits - 1)
  }

  function BitXor(a: int, b: int): (r: int)
    requires 0 <= a && 0 <= b
    ensures 0 <= r
    decreases a
  {
    if a == 0 then b else 2 * BitXor(a / 2, b / 2) + (if a % 2 == b % 2 then 0 else 1)
  }

  function CmpFlags(a: U64, b: U64): Flags {
    var d := Wrap(a - b);
    var sa, sb, sd := a >= 0x8000_0000_0000_0000, b >= 0x8000_0000_0000_0000, d >= 0x8000_0000_0000_0000;
    Flags(a < b, Parity(d % 256, 8), a % 16 < b % 16, d == 0, sd, sa != sb && sa != sd)
  }

  /** Flags of a logical result; the adjust flag, undefined by the architecture, is taken as cleared. */
  function LogicFlags(r: U64): Flags {
    Flags(false, Parity(r % 256, 8), false, r == 0, r >= 0x8000_0000_0000_0000, false)
  }

  function Exec(c: Cpu, insn: Insn, next: U64): Cpu {
    match insn
    case Op(op, dst, src) =>
      var v := Read(c, src, next);
      (match op
       case Mov => c.(regs := c.regs[dst := v], rip := next)
       case Cmp => c.(flags := CmpFlags(c.regs[dst], v), rip := next)
       case Xor =>
         var x := Wrap(BitXor(c.regs[dst], v)); c.(regs := c.regs[dst := x], flags := LogicFlags(x), rip := next))
    case Lea(dst, base, disp) => c.(regs := c.regs[dst := Plus(BaseValue(c, base, next), disp)], rip := next)
    case Push(r) =>
      var sp := Plus(c.regs[RSP], -8);
      c.(regs := c.regs[RSP := sp], mem := Store64(c.mem, sp, c.regs[r]), rip := next)
    case Pop(r) => c.(regs := c.regs[RSP := Plus(c.regs[RSP], 8)][r := Load64(c.mem, c.regs[RSP])], rip := next)
    case Jmp(disp) => c.(rip := Plus(next, disp))
    case JmpReg(r) => c.(rip := c.regs[r])
    case TestReg(r) => c.(flags := LogicFlags(c.regs[r]), rip := next)
    case Jnz(disp) => c.(rip := if c.flags.zf then next else Plus(next, disp))
  }

  /** The bytes at an address, as the decoder sees them. */
  function Fetch(m: Memory, a: U64): nat -> Byte {
    (i: nat) => m(Plus(a, i))
  }

  type Decoder = (nat -> Byte) -> Option<Decoded>

  /** One machine step, if the bytes at `rip` decode. */
  function Step(decode: Decoder, c: Cpu): Option<Cpu> {
    match decode(Fetch(c.mem, c.rip))
    case None => None
    case Some(d) => Some(Exec(c, d.insn, Plus(c.rip, d.len)))
  }

  function Run(decode: Decoder, c: Cpu, n: nat): Option<Cpu>
    decreases n
  {
    if n == 0 then Some(c) else match Step(decode, c) case None => None case Some(d) => Run(decode, d, n - 1)
  }

  /** `code` lies in memory at `a`. */
  ghost predicate CodeAt(m: Memory, a: U64, code: seq<Byte>) {
    forall i {:trigger code[i]} :: 0 <= i < |code| ==> m(Plus(a, i)) == code[i]
  }
}
