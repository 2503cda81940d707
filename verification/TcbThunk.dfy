/** The bytes the patcher emits for a guest TCB access, and the jump that replaces it. */
module TcbThunk {
  import opened Base
  import opened X86

  const NEAR_JUMP_SIZE := 5
  const TCB_SIZE := 0x40

  /** A decoded 64-bit `op dst, fs:[offset]`. */
  datatype Access = Access(op: Alu, dst: Reg, offset: nat)

  // ---- Encodings --------------------------------------------------------

  function Rex(r: bool, b: bool): Byte { 0x48 + (if r then 4 else 0) + (if b then 1 else 0) }

  function MovGsAbsolute(dst: Reg, disp: int): seq<Byte>
    requires 0 <= disp < 0x1_0000_0000
  {
    [0x65, Rex(dst >= 8, false), 0x8b, 0x04 + 8 * (dst % 8), 0x25] + Le32(disp)
  }

  function MovFromBase(dst: Reg, base: Reg, disp: int): seq<Byte>
    requires 0 <= disp < 0x1_0000_0000
  {
    [Rex(dst >= 8, base >= 8), 0x8b, 0x80 + 8 * (dst % 8) + base % 8]
    + (if base % 8 == 4 then [0x24] else []) + Le32(disp)
  }

  function RegisterOp(opcode: Byte, dst: Reg, src: Reg): seq<Byte> {
    [Rex(dst >= 8, src >= 8), opcode, 0xc0 + 8 * (dst % 8) + src % 8]
  }

  function PushBytes(r: Reg): seq<Byte> { (if r >= 8 then [0x41] else []) + [0x50 + r % 8] }
  function PopBytes(r: Reg): seq<Byte> { (if r >= 8 then [0x41] else []) + [0x58 + r % 8] }

  const MOVE_BELOW_RED_ZONE: seq<Byte> := [0x48, 0x8d, 0x64, 0x24, 0x80]
  const RESTORE_STACK: seq<Byte> := [0x48, 0x8d, 0xa4, 0x24, 0x80, 0x00, 0x00, 0x00]

  /** Signed distance of a near jump, when it fits in 32 bits. */
  function RelativeDisplacement(next: U64, target: U64): (d: Option<int>)
    ensures d.Some? <==> -0x8000_0000 <= target - next < 0x8000_0000
    ensures d.Some? ==> next + d.value == target
  {
    if target >= next then
      var delta := target - next;
      if delta > 0x7fff_ffff then None else Some(delta)
    else
      var delta := next - target;
      if delta > 0x8000_0000 then None
      else if delta == 0x8000_0000 then Some(-0x8000_0000)
      else Some(-delta)
  }

  function NearJump(at: U64, target: U64): (j: Option<seq<Byte>>)
    ensures j.Some? ==> |j.value| == NEAR_JUMP_SIZE
  {
    match RelativeDisplacement(Plus(at, NEAR_JUMP_SIZE), target)
    case None => None
    case Some(d) => Some([0xe9] + Le32(d % 0x1_0000_0000))
  }

  // ---- The thunk --------------------------------------------------------

  function Scratch(dst: Reg): Reg { if dst == RAX then RBX else RAX }

  function LoadTcbField(r: Reg, offset: nat, teb: int): seq<Byte>
    requires 0 <= teb < 0x1_0000_0000 && offset < TCB_SIZE
  {
    MovGsAbsolute(r, teb) + (if offset != 0 then MovFromBase(r, r, offset) else [])
  }

  function Body(a: Access, teb: int): seq<Byte>
    requires 0 <= teb < 0x1_0000_0000 && a.offset < TCB_SIZE
  {
    if a.op == Mov then LoadTcbField(a.dst, a.offset, teb)
    else
      var s := Scratch(a.dst);
      MOVE_BELOW_RED_ZONE + PushBytes(s) + LoadTcbField(s, a.offset, teb)
      + RegisterOp(if a.op == Cmp then 0x3b else 0x33, a.dst, s) + PopBytes(s) + RESTORE_STACK
  }

  /** build_windows_tcb_thunk: refuses CMP and XOR on the stack pointer and jumps that do not reach. */
  function BuildThunk(a: Access, teb: int, at: U64, back: U64): (code: Option<seq<Byte>>)
    requires 0 <= teb < 0x1_0000_0000 && a.offset < TCB_SIZE
  {
    if a.op != Mov && a.dst == RSP then None
    else match NearJump(Plus(at, |Body(a, teb)|), back)
      case None => None
      case Some(jump) => Some(Body(a, teb) + jump)
  }

  /** The size of the thunk for a field other than the first. */
  function ThunkSize(a: Access): nat { if a.op != Mov then 39 else if a.dst % 8 == 4 then 22 else 21 }

  /** A thunk can be built for every access but CMP and XOR on the stack pointer, where its last jump reaches back;
      its size depends on the access alone. */
  lemma BuildsExactly(a: Access, teb: int, at: U64, back: U64)
    requires 0 <= teb < 0x1_0000_0000 && 0 < a.offset < TCB_SIZE
    ensures BuildThunk(a, teb, at, back).Some? ==> |BuildThunk(a, teb, at, back).value| == ThunkSize(a)
    ensures at + ThunkSize(a) <= U64_MAX ==>
              (BuildThunk(a, teb, at, back).Some?
               <==> (a.op == Mov || a.dst != RSP) && -0x8000_0000 <= back - (at + ThunkSize(a)) < 0x8000_0000)
  {
    assert |Body(a, teb)| == ThunkSize(a) - NEAR_JUMP_SIZE;
    if at + ThunkSize(a) <= U64_MAX {
      assert Plus(Plus(at, |Body(a, teb)|), NEAR_JUMP_SIZE) == at + ThunkSize(a);
    }
  }

  // ---- Decoding what was emitted ----------------------------------------

  /** The decoder's input begins with `code`. */
  ghost predicate Starts(b: nat -> Byte, code: seq<Byte>) {
    forall i :: 0 <= i < |code| ==> b(i) == code[i]
  }

  lemma RexBits(r: bool, b: bool)
    ensures 0x40 <= Rex(r, b) < 0x50 && var rex := Rex(r, b) % 16;
            rex / 8 % 2 == 1 && (rex / 4 % 2 == 1) == r && rex / 2 % 2 == 0 && (rex % 2 == 1) == b
  {
  }

  lemma ModRmBits(mod: int, reg: int, rm: int)
    requires 0 <= mod < 4 && 0 <= reg < 8 && 0 <= rm < 8
    ensures var b := 64 * mod + 8 * reg + rm; b / 64 == mod && b / 8 % 8 == reg && b % 8 == rm
  {
  }

  lemma ReadsLe32(b: nat -> Byte, p: nat, v: int)
    requires 0 <= v < 0x1_0000_0000 && forall i :: 0 <= i < 4 ==> b(p + i) == Le32(v)[i]
    ensures U32At(b, p) == v
  {
    assert b(p + 0) == Le32(v)[0] && b(p + 1) == Le32(v)[1] && b(p + 2) == Le32(v)[2] && b(p + 3) == Le32(v)[3];
  }

  lemma DecodesMovGs(b: nat -> Byte, dst: Reg, disp: int)
    requires 0 <= disp < 0x1_0000_0000 && Starts(b, MovGsAbsolute(dst, disp))
    ensures Decode(b) == Some(Decoded(Op(Mov, dst, InMem(Gs, NoBase, Signed32(disp))), 9))
  {
    var code := MovGsAbsolute(dst, disp);
    assert b(0) == code[0] && b(1) == code[1] && b(2) == code[2] && b(3) == code[3] && b(4) == code[4];
    ReadsLe32(b, 5,
              disp) by { forall i | 0 <= i < 4 ensures b(5 + i) == Le32(disp)[i] { assert b(5 + i) == code[5 + i]; } }
    RexBits(dst >= 8, false);
    assert DecodeModRm(b, 3, Gs, dst >= 8, false, false) == Some(ModRm(dst, InMem(Gs, NoBase, Signed32(disp)), 9));
  }

  lemma BaseOperand(b: nat -> Byte, dst: Reg, base: Reg, disp: int)
    requires 0 <= disp < 0x8000_0000 && Starts(b, MovFromBase(dst, base, disp))
    ensures DecodeModRm(b, 2, Flat, dst >= 8, false, base >= 8)
            == Some(ModRm(dst, InMem(Flat, Base(base), disp), |MovFromBase(dst, base, disp)|))
  {
    var code := MovFromBase(dst, base, disp);
    var p := if base % 8 == 4 then 4 else 3;
    assert b(2) == code[2] && (p == 4 ==> b(3) == code[3]);
    ReadsLe32(b, p,
              disp) by { forall i | 0 <= i < 4 ensures b(p + i) == Le32(disp)[i] { assert b(p + i) == code[p + i]; } }
    ModRmBits(2, dst % 8, base % 8);
  }

  lemma DecodesMovBase(b: nat -> Byte, dst: Reg, base: Reg, disp: int)
    requires 0 <= disp < 0x8000_0000 && Starts(b, MovFromBase(dst, base, disp))
    ensures Decode(b) == Some(Decoded(Op(Mov, dst, InMem(Flat, Base(base), disp)), |MovFromBase(dst, base, disp)|))
  {
    var code := MovFromBase(dst, base, disp);
    assert b(0) == code[0] && b(1) == code[1];
    RexBits(dst >= 8, base >= 8);
    BaseOperand(b, dst, base, disp);
  }

  lemma DecodesRegisterOp(b: nat -> Byte, op: Alu, dst: Reg, src: Reg)
    requires op != Mov && Starts(b, RegisterOp(if op == Cmp then 0x3b else 0x33, dst, src))
    ensures Decode(b) == Some(Decoded(Op(op, dst, InReg(src)), 3))
  {
    var code := RegisterOp(if op == Cmp then 0x3b else 0x33, dst, src);
    assert b(0) == code[0] && b(1) == code[1] && b(2) == code[2];
    RexBits(dst >= 8, src >= 8);
    ModRmBits(3, dst % 8, src % 8);
    assert DecodeModRm(b, 2, Flat, dst >= 8, false, src >= 8) == Some(ModRm(dst, InReg(src), 3));
  }

  lemma DecodesPush(b: nat -> Byte, r: Reg)
    requires Starts(b, PushBytes(r))
    ensures Decode(b) == Some(Decoded(Push(r), |PushBytes(r)|))
  {
    assert b(0) == PushBytes(r)[0];
    if r >= 8 { assert b(1) == PushBytes(r)[1]; }
  }

  lemma DecodesPop(b: nat -> Byte, r: Reg)
    requires Starts(b, PopBytes(r))
    ensures Decode(b) == Some(Decoded(Pop(r), |PopBytes(r)|))
  {
    assert b(0) == PopBytes(r)[0];
    if r >= 8 { assert b(1) == PopBytes(r)[1]; }
  }

  lemma DecodesEnter(b: nat -> Byte)
    requires Starts(b, MOVE_BELOW_RED_ZONE)
    ensures Decode(b) == Some(Decoded(Lea(RSP, Base(RSP), -128), 5))
  {
    assert b(0) == 0x48 && b(1) == 0x8d && b(2) == 0x64 && b(3) == 0x24 && b(4) == 0x80;
    assert DecodeModRm(b, 2, Flat, false, false, false) == Some(ModRm(RSP, InMem(Flat, Base(RSP), -128), 5));
  }

  lemma DecodesLeave(b: nat -> Byte)
    requires Starts(b, RESTORE_STACK)
    ensures Decode(b) == Some(Decoded(Lea(RSP, Base(RSP), 128), 8))
  {
    assert b(0) == 0x48 && b(1) == 0x8d && b(2) == 0xa4 && b(3) == 0x24;
    assert b(4) == 0x80 && b(5) == 0 && b(6) == 0 && b(7) == 0;
    assert DecodeModRm(b, 2, Flat, false, false, false) == Some(ModRm(RSP, InMem(Flat, Base(RSP), 128), 8));
  }

  lemma DecodesJump(b: nat -> Byte, at: U64, target: U64)
    requires NearJump(at, target).Some? && Starts(b, NearJump(at, target).value)
    ensures Decode(b) == Some(Decoded(Jmp(target - Plus(at, 5)), 5))
  {
    var d, code := RelativeDisplacement(Plus(at, 5), target).value, NearJump(at, target).value;
    assert b(0) == code[0];
    ReadsLe32(b, 1, d % 0x1_0000_0000) by {
      forall i | 0 <= i < 4 ensures b(1 + i) == Le32(d % 0x1_0000_0000)[i] { assert b(1 + i) == code[1 + i]; }
    }
    assert Signed32(d % 0x1_0000_0000) == d;
  }

  // ---- Thunks as instruction listings -----------------------------------

  /** An instruction together with its encoding. */
  datatype Line = Line(bytes: seq<Byte>, insn: Insn)

  function Bytes(lines: seq<Line>): seq<Byte> {
    if lines == [] then [] else lines[0].bytes + Bytes(lines[1..])
  }

  /** Whatever follows it, the line's encoding decodes to its instruction. */
  ghost predicate Sound(decode: Decoder, line: Line) {
    forall b :: Starts(b, line.bytes) ==> decode(b) == Some(Decoded(line.insn, |line.bytes|))
  }

  function LoadLines(r: Reg, offset: nat, teb: int): seq<Line>
    requires 0 <= teb < 0x1_0000_0000 && 0 < offset < TCB_SIZE
  {
    [Line(MovGsAbsolute(r, teb), Op(Mov, r, InMem(Gs, NoBase, Signed32(teb)))),
     Line(MovFromBase(r, r, offset), Op(Mov, r, InMem(Flat, Base(r), offset)))]
  }

  function BodyLines(a: Access, teb: int): seq<Line>
    requires 0 <= teb < 0x1_0000_0000 && 0 < a.offset < TCB_SIZE
  {
    if a.op == Mov then LoadLines(a.dst, a.offset, teb)
    else
      var s := Scratch(a.dst);
      [Line(MOVE_BELOW_RED_ZONE, Lea(RSP, Base(RSP), -128)), Line(PushBytes(s), Push(s))]
      + LoadLines(s, a.offset, teb)
      + [Line(RegisterOp(if a.op == Cmp then 0x3b else 0x33, a.dst, s), Op(a.op, a.dst, InReg(s))),
         Line(PopBytes(s), Pop(s)), Line(RESTORE_STACK, Lea(RSP, Base(RSP), 128))]
  }

  lemma {:induction false} BytesConcat(x: seq<Line>, y: seq<Line>)
    ensures Bytes(x + y) == Bytes(x) + Bytes(y)
  {
    if x == [] {
      assert x + y == y;
    } else {
      calc {
        Bytes(x + y);
        { assert (x + y)[0] == x[0] && (x + y)[1..] == x[1..] + y; }
        x[0].bytes + Bytes(x[1..] + y);
        { BytesConcat(x[1..], y); }
        x[0].bytes + (Bytes(x[1..]) + Bytes(y));
        (x[0].bytes + Bytes(x[1..])) + Bytes(y);
      }
    }
  }

  lemma BytesOfTwo(x: Line, y: Line)
    ensures Bytes([x, y]) == x.bytes + y.bytes
  {
    assert Bytes([x, y]) == x.bytes + Bytes([x, y][1..]) && [x, y][1..] == [y];
    assert Bytes([y]) == y.bytes + Bytes([y][1..]);
  }

  lemma BytesOfThree(x: Line, y: Line, z: Line)
    ensures Bytes([x, y, z]) == x.bytes + y.bytes + z.bytes
  {
    BytesOfTwo(y, z);
    assert [x, y, z][1..] == [y, z];
  }

  /** The listing spells out exactly the emitted body. */
  lemma ListingIsBody(a: Access, teb: int)
    requires 0 <= teb < 0x1_0000_0000 && 0 < a.offset < TCB_SIZE
    ensures Bytes(BodyLines(a, teb)) == Body(a, teb)
  {
    var r := if a.op == Mov then a.dst else Scratch(a.dst);
    var load := LoadLines(r, a.offset, teb);
    BytesOfTwo(load[0], load[1]);
    if a.op != Mov {
      var lines := BodyLines(a, teb);
      var enter, leave := lines[..2], lines[4..];
      BytesOfTwo(lines[0], lines[1]);
      BytesOfThree(lines[4], lines[5], lines[6]);
      assert lines == enter + load + leave && enter == [lines[0], lines[1]] && leave == [lines[4], lines[5], lines[6]];
      BytesConcat(enter + load, leave);
      BytesConcat(enter, load);
    }
  }

  lemma LoadSound(r: Reg, offset: nat, teb: int)
    requires 0 <= teb < 0x1_0000_0000 && 0 < offset < TCB_SIZE
    ensures forall l :: l in LoadLines(r, offset, teb) ==> Sound(Decode, l)
  {
    var load := LoadLines(r, offset, teb);
    forall b | Starts(b, load[0].bytes) ensures Decode(b) == Some(Decoded(load[0].insn, |load[0].bytes|)) {
      DecodesMovGs(b, r, teb);
    }
    forall b | Starts(b, load[1].bytes) ensures Decode(b) == Some(Decoded(load[1].insn, |load[1].bytes|)) {
      DecodesMovBase(b, r, r, offset);
    }
  }

  lemma StackSound(s: Reg)
    ensures Sound(Decode, Line(PushBytes(s), Push(s))) && Sound(Decode, Line(PopBytes(s), Pop(s)))
    ensures Sound(Decode, Line(MOVE_BELOW_RED_ZONE, Lea(RSP, Base(RSP), -128)))
    ensures Sound(Decode, Line(RESTORE_STACK, Lea(RSP, Base(RSP), 128)))
  {
    forall b | Starts(b, PushBytes(s)) ensures Decode(b) == Some(Decoded(Push(s), |PushBytes(s)|)) {
      DecodesPush(b, s);
    }
    forall b | Starts(b, PopBytes(s)) ensures Decode(b) == Some(Decoded(Pop(s), |PopBytes(s)|)) { DecodesPop(b, s); }
    forall b | Starts(b, MOVE_BELOW_RED_ZONE) ensures Decode(b) == Some(Decoded(Lea(RSP, Base(RSP), -128), 5)) {
      DecodesEnter(b);
    }
    forall b | Starts(b, RESTORE_STACK) ensures Decode(b) == Some(Decoded(Lea(RSP, Base(RSP), 128), 8)) {
      DecodesLeave(b);
    }
  }

  lemma OpSound(op: Alu, dst: Reg, src: Reg)
    requires op != Mov
    ensures Sound(Decode, Line(RegisterOp(if op == Cmp then 0x3b else 0x33, dst, src), Op(op, dst, InReg(src))))
  {
    forall b | Starts(b, RegisterOp(if op == Cmp then 0x3b else 0x33, dst, src))
      ensures Decode(b) == Some(Decoded(Op(op, dst, InReg(src)), 3)) { DecodesRegisterOp(b, op, dst, src); }
  }

  /** Every line of a thunk body decodes to its instruction. */
  lemma BodySound(a: Access, teb: int)
    requires 0 <= teb < 0x1_0000_0000 && 0 < a.offset < TCB_SIZE
    ensures forall l :: l in BodyLines(a, teb) ==> Sound(Decode, l)
  {
    LoadSound(if a.op == Mov then a.dst else Scratch(a.dst), a.offset, teb);
    if a.op != Mov {
      StackSound(Scratch(a.dst));
      OpSound(a.op, a.dst, Scratch(a.dst));
    }
  }

  lemma JumpSound(at: U64, target: U64)
    requires NearJump(at, target).Some?
    ensures Sound(Decode, Line(NearJump(at, target).value, Jmp(target - Plus(at, 5))))
  {
    forall b | Starts(b, NearJump(at, target).value) ensures Decode(b) == Some(Decoded(Jmp(target - Plus(at, 5)), 5)) {
      DecodesJump(b, at, target);
    }
  }
}
