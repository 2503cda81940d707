/** The machine code of a late-import thunk: it forwards to its target, or counts the call and returns zero. */
module LateThunk {
  import opened Base
  import opened X86
  import opened TcbThunk
  import opened TcbEquivalence

  function Signed64(v: U64): int { if v < 0x8000_0000_0000_0000 then v else v - 0x1_0000_0000_0000_0000 }

  predicate Fits32(d: int) { -0x8000_0000 <= d < 0x8000_0000 }

  /** The displacement that takes an instruction ending at `next` to `data`. */
  function Distance(next: U64, data: U64): int { Signed64(data) - Signed64(next) }

  lemma DistanceReaches(next: U64, data: U64)
    ensures Plus(next, Distance(next, data)) == data
  {
    WrapIsMod(next + Distance(next, data));
  }

  function MovTarget(d: int): seq<Byte> { [0x4c, 0x8b, 0x1d] + Le32(d % 0x1_0000_0000) }
  const TEST_TARGET: seq<Byte> := [0x4d, 0x85, 0xdb]
  const JNZ_RESOLVED: seq<Byte> := [0x75, 0x11]
  function LeaCounter(d: int): seq<Byte> { [0x4c, 0x8d, 0x15] + Le32(d % 0x1_0000_0000) }
  const LOCK_INC: seq<Byte> := [0xf0, 0x49, 0xff, 0x02]
  const ZERO_EAX: seq<Byte> := [0x31, 0xc0]
  const ZERO_XMM0: seq<Byte> := [0x0f, 0x57, 0xc0]
  const RET: seq<Byte> := [0xc3]
  const JMP_TARGET: seq<Byte> := [0x41, 0xff, 0xe3]

  /** make_thunk; nothing where a displacement does not fit in 32 bits. */
  function MakeThunk(code: U64, data: U64): (r: Option<seq<Byte>>)
    ensures r.Some? ==> |r.value| == 32
  {
    var d1, d2 := Distance(Plus(code, 7), data), Distance(Plus(code, 19), Plus(data, 8));
    if !Fits32(d1) || !Fits32(d2) then None
    else Some(MovTarget(d1) + TEST_TARGET + JNZ_RESOLVED + LeaCounter(d2) + LOCK_INC + ZERO_EAX + ZERO_XMM0 + RET
              + JMP_TARGET)
  }

  // ---- The machine ------------------------------------------------------

  datatype Machine = Machine(cpu: Cpu, xmm0: nat)

  /** Instructions that only these thunks use. */
  datatype Special = LockInc | ZeroEax | ZeroXmm0 | Ret

  function DecodeSpecial(b: nat -> Byte): Option<(Special, nat)> {
    if b(0) == 0xf0 && b(1) == 0x49 && b(2) == 0xff && b(3) == 0x02 then Some((LockInc, 4))
    else if b(0) == 0x31 && b(1) == 0xc0 then Some((ZeroEax, 2))
    else if b(0) == 0x0f && b(1) == 0x57 && b(2) == 0xc0 then Some((ZeroXmm0, 3))
    else if b(0) == 0xc3 then Some((Ret, 1))
    else None
  }

  /** Flags of an increment, which leaves the carry flag alone. */
  function IncFlags(f: Flags, v: U64): Flags {
    Flags(f.cf, Parity(v % 256, 8), v % 16 == 0, v == 0, v >= 0x8000_0000_0000_0000, v == 0x8000_0000_0000_0000)
  }

  function ExecSpecial(m: Machine, s: Special, next: U64): Machine {
    var c := m.cpu;
    match s
    case LockInc =>
      var v := Plus(Load64(c.mem, c.regs[R10]), 1);
      m.(cpu := c.(mem := Store64(c.mem, c.regs[R10], v), flags := IncFlags(c.flags, v), rip := next))
    case ZeroEax => m.(cpu := c.(regs := c.regs[RAX := 0], flags := LogicFlags(0), rip := next))
    case ZeroXmm0 => Machine(c.(rip := next), 0)
    case Ret => m.(cpu := c.(regs := c.regs[RSP := Plus(c.regs[RSP], 8)], rip := Load64(c.mem, c.regs[RSP])))
  }

  function Tick(decode: Decoder, m: Machine): Option<Machine> {
    match DecodeSpecial(Fetch(m.cpu.mem, m.cpu.rip))
    case Some((s, n)) => Some(ExecSpecial(m, s, Plus(m.cpu.rip, n)))
    case None => match Step(decode, m.cpu) case None => None case Some(c) => Some(m.(cpu := c))
  }

  type Ticker = Machine -> Option<Machine>

  function Ticks(tick: Ticker, m: Machine, n: nat): Option<Machine>
    decreases n
  {
    if n == 0 then Some(m) else match tick(m) case None => None case Some(m') => Ticks(tick, m', n - 1)
  }

  /** The machine itself. */
  function Clock(decode: Decoder): Ticker { m => Tick(decode, m) }

  lemma {:induction false} Chain(tick: Ticker, states: seq<Machine>)
    requires |states| > 0 && forall i :: 0 <= i < |states| - 1 ==> tick(states[i]) == Some(states[i + 1])
    ensures Ticks(tick, states[0], |states| - 1) == Some(states[|states| - 1])
    decreases |states|
  {
    if |states| > 1 {
      assert tick(states[0]) == Some(states[0 + 1]);
      Chain(tick, states[1..]);
    }
  }

  // ---- Single instructions ----------------------------------------------

  /** A line of the ordinary instruction set, found in memory, is what executes next. */
  lemma TickLine(decode: Decoder, m: Machine, line: Line)
    requires Sound(decode, line) && CodeAt(m.cpu.mem, m.cpu.rip, line.bytes)
    requires |line.bytes| >= 2 && line.bytes[0] !in [0xf0, 0x31, 0x0f, 0xc3]
    ensures Tick(decode, m) == Some(m.(cpu := Exec(m.cpu, line.insn, Plus(m.cpu.rip, |line.bytes|))))
  {
    LineSteps(decode, m.cpu, line);
    assert m.cpu.mem(Plus(m.cpu.rip, 0)) == line.bytes[0];
  }

  lemma TickSpecial(decode: Decoder, m: Machine, s: Special, bytes: seq<Byte>)
    requires CodeAt(m.cpu.mem, m.cpu.rip, bytes)
    requires bytes == match s
                      case LockInc => LOCK_INC
                      case ZeroEax => ZERO_EAX
                      case ZeroXmm0 => ZERO_XMM0
                      case Ret => RET
    ensures Tick(decode, m) == Some(ExecSpecial(m, s, Plus(m.cpu.rip, |bytes|)))
  {
    var b := Fetch(m.cpu.mem, m.cpu.rip);
    forall i | 0 <= i < |bytes| ensures b(i) == bytes[i] { }
    assert b(0) == bytes[0];
  }

  function MovLine(d: int): Line { Line(MovTarget(d), Op(Mov, R11, InMem(Flat, Rip, d))) }
  function LeaLine(d: int): Line { Line(LeaCounter(d), Lea(R10, Rip, d)) }
  const TEST_LINE := Line(TEST_TARGET, TestReg(R11))
  const JNZ_LINE := Line(JNZ_RESOLVED, Jnz(17))
  const JMP_LINE := Line(JMP_TARGET, JmpReg(R11))

  lemma RipOperand(b: nat -> Byte, d: int, r: Reg)
    requires Fits32(d) && r in [R10, R11] && b(2) == 8 * (r % 8) + 5
    requires forall i :: 0 <= i < 4 ==> b(3 + i) == Le32(d % 0x1_0000_0000)[i]
    ensures DecodeModRm(b, 2, Flat, true, false, false) == Some(ModRm(r, InMem(Flat, Rip, d), 7))
  {
    ReadsLe32(b, 3, d % 0x1_0000_0000);
    assert Signed32(d % 0x1_0000_0000) == d;
  }

  lemma MovSound(d: int)
    requires Fits32(d)
    ensures Sound(Decode, MovLine(d))
  {
    var code := MovTarget(d);
    forall b | Starts(b, code) ensures Decode(b) == Some(Decoded(MovLine(d).insn, 7)) {
      assert b(0) == code[0] && b(1) == code[1] && b(2) == code[2];
      forall i | 0 <= i < 4 ensures b(3 + i) == Le32(d % 0x1_0000_0000)[i] { assert b(3 + i) == code[3 + i]; }
      RipOperand(b, d, R11);
    }
  }

  lemma LeaSound(d: int)
    requires Fits32(d)
    ensures Sound(Decode, LeaLine(d))
  {
    var code := LeaCounter(d);
    forall b | Starts(b, code) ensures Decode(b) == Some(Decoded(LeaLine(d).insn, 7)) {
      assert b(0) == code[0] && b(1) == code[1] && b(2) == code[2];
      forall i | 0 <= i < 4 ensures b(3 + i) == Le32(d % 0x1_0000_0000)[i] { assert b(3 + i) == code[3 + i]; }
      RipOperand(b, d, R10);
    }
  }

  lemma TestSound()
    ensures Sound(Decode, TEST_LINE)
  {
    forall b | Starts(b, TEST_TARGET) ensures Decode(b) == Some(Decoded(TestReg(R11), 3)) {
      assert b(0) == 0x4d && b(1) == 0x85 && b(2) == 0xdb;
      assert DecodeModRm(b, 2, Flat, true, false, true) == Some(ModRm(R11, InReg(R11), 3));
    }
  }

  lemma JumpsSound()
    ensures Sound(Decode, JNZ_LINE) && Sound(Decode, JMP_LINE)
  {
    forall b | Starts(b, JNZ_RESOLVED) ensures Decode(b) == Some(Decoded(Jnz(17), 2)) {
      assert b(0) == 0x75 && b(1) == 0x11;
    }
    forall b | Starts(b, JMP_TARGET) ensures Decode(b) == Some(Decoded(JmpReg(R11), 3)) {
      assert b(0) == 0x41 && b(1) == 0xff && b(2) == 0xe3;
      assert DecodeModRm(b, 2, Flat, false, false, true) == Some(ModRm(4, InReg(R11), 3));
    }
  }

  // ---- The thunk in memory ----------------------------------------------

  /** Every instruction of the thunk stands at its place. */
  ghost predicate Placed(mem: Memory, code: U64, d1: int, d2: int) {
    && CodeAt(mem, code, MovTarget(d1)) && CodeAt(mem, Plus(code, 7), TEST_TARGET)
    && CodeAt(mem, Plus(code, 10), JNZ_RESOLVED) && CodeAt(mem, Plus(code, 12), LeaCounter(d2))
    && CodeAt(mem, Plus(code, 19), LOCK_INC) && CodeAt(mem, Plus(code, 23), ZERO_EAX)
    && CodeAt(mem, Plus(code, 25), ZERO_XMM0) && CodeAt(mem, Plus(code, 28), RET)
    && CodeAt(mem, Plus(code, 29), JMP_TARGET)
  }

  lemma PieceAt(mem: Memory, code: U64, all: seq<Byte>, k: nat, piece: seq<Byte>)
    requires CodeAt(mem, code, all) && k + |piece| <= |all| && all[k..k + |piece|] == piece
    ensures CodeAt(mem, Plus(code, k), piece)
  {
    forall i | 0 <= i < |piece| ensures mem(Plus(Plus(code, k), i)) == piece[i] {
      PlusPlus(code, k, i);
      assert piece[i] == all[k + i];
    }
  }

  lemma ThunkPlaced(mem: Memory, code: U64, data: U64)
    requires MakeThunk(code, data).Some? && CodeAt(mem, code, MakeThunk(code, data).value)
    ensures Placed(mem, code, Distance(Plus(code, 7), data), Distance(Plus(code, 19), Plus(data, 8)))
  {
    var d1, d2 := Distance(Plus(code, 7), data), Distance(Plus(code, 19), Plus(data, 8));
    var all := MakeThunk(code, data).value;
    PieceAt(mem, code, all, 0, MovTarget(d1));
    PieceAt(mem, code, all, 7, TEST_TARGET);
    PieceAt(mem, code, all, 10, JNZ_RESOLVED);
    PieceAt(mem, code, all, 12, LeaCounter(d2));
    PieceAt(mem, code, all, 19, LOCK_INC);
    PieceAt(mem, code, all, 23, ZERO_EAX);
    PieceAt(mem, code, all, 25, ZERO_XMM0);
    PieceAt(mem, code, all, 28, RET);
    PieceAt(mem, code, all, 29, JMP_TARGET);
  }

  /** The decoder reads the thunk's ordinary instructions as intended. */
  ghost predicate Decodes(decode: Decoder, d1: int, d2: int) {
    && Sound(decode, MovLine(d1)) && Sound(decode, TEST_LINE) && Sound(decode, JNZ_LINE)
    && Sound(decode, LeaLine(d2)) && Sound(decode, JMP_LINE)
  }

  // ---- Running it -------------------------------------------------------

  function At(m: Machine, rip: U64): Machine { m.(cpu := m.cpu.(rip := rip)) }
  function Loaded(m: Machine, target: U64): Machine { m.(cpu := m.cpu.(regs := m.cpu.regs[R11 := target])) }
  function Tested(m: Machine, target: U64): Machine { m.(cpu := m.cpu.(flags := LogicFlags(target))) }

  lemma TickMov(decode: Decoder, m: Machine, data: U64, d1: int)
    requires CodeAt(m.cpu.mem, m.cpu.rip, MovTarget(d1)) && Sound(decode, MovLine(d1))
             && Plus(Plus(m.cpu.rip, 7), d1) == data
    ensures Tick(decode, m) == Some(At(Loaded(m, Load64(m.cpu.mem, data)), Plus(m.cpu.rip, 7)))
  {
    TickLine(decode, m, MovLine(d1));
    PlusMore(Plus(m.cpu.rip, 7), data, d1);
  }

  lemma TickTest(decode: Decoder, m: Machine)
    requires CodeAt(m.cpu.mem, m.cpu.rip, TEST_TARGET) && Sound(decode, TEST_LINE)
    ensures Tick(decode, m) == Some(At(Tested(m, m.cpu.regs[R11]), Plus(m.cpu.rip, 3)))
  {
    TickLine(decode, m, TEST_LINE);
  }

  lemma TickJnz(decode: Decoder, m: Machine)
    requires CodeAt(m.cpu.mem, m.cpu.rip, JNZ_RESOLVED) && Sound(decode, JNZ_LINE)
    ensures Tick(decode, m) == Some(At(m, Plus(m.cpu.rip, if m.cpu.flags.zf then 2 else 19)))
  {
    TickLine(decode, m, JNZ_LINE);
    PlusPlus(m.cpu.rip, 2, 17);
  }

  lemma TickJmp(decode: Decoder, m: Machine)
    requires CodeAt(m.cpu.mem, m.cpu.rip, JMP_TARGET) && Sound(decode, JMP_LINE)
    ensures Tick(decode, m) == Some(At(m, m.cpu.regs[R11]))
  {
    TickLine(decode, m, JMP_LINE);
  }

  lemma TickLea(decode: Decoder, m: Machine, counter: U64, d2: int)
    requires CodeAt(m.cpu.mem, m.cpu.rip, LeaCounter(d2)) && Sound(decode, LeaLine(d2))
             && Plus(Plus(m.cpu.rip, 7), d2) == counter
    ensures Tick(decode, m) == Some(At(m.(cpu := m.cpu.(regs := m.cpu.regs[R10 := counter])), Plus(m.cpu.rip, 7)))
  {
    TickLine(decode, m, LeaLine(d2));
  }

  lemma ThunkDecodes(code: U64, data: U64)
    requires MakeThunk(code, data).Some?
    ensures Decodes(Decode, Distance(Plus(code, 7), data), Distance(Plus(code, 19), Plus(data, 8)))
  {
    MovSound(Distance(Plus(code, 7), data));
    LeaSound(Distance(Plus(code, 19), Plus(data, 8)));
    TestSound();
    JumpsSound();
  }

  /** The state after the load, the test and the conditional jump, and the two states between. */
  function Preamble(m: Machine, code: U64, target: U64): seq<Machine> {
    var m1 := At(Loaded(m, target), Plus(code, 7));
    var m2 := At(Tested(m1, target), Plus(code, 10));
    [m, m1, m2, At(m2, Plus(code, if target == 0 then 12 else 29))]
  }

  ghost predicate Linked(tick: Ticker, states: seq<Machine>) {
    forall i :: 0 <= i < |states| - 1 ==> tick(states[i]) == Some(states[i + 1])
  }

  lemma PreambleTicks(decode: Decoder, m: Machine, code: U64, data: U64, d1: int, d2: int)
    requires Placed(m.cpu.mem, code, d1, d2) && Decodes(decode, d1, d2) && m.cpu.rip == code
             && Plus(Plus(code, 7), d1) == data
    ensures Linked(Clock(decode), Preamble(m, code, Load64(m.cpu.mem, data)))
  {
    var states := Preamble(m, code, Load64(m.cpu.mem, data));
    TickMov(decode, m, data, d1);
    PlusPlus(code, 7, 3);
    TickTest(decode, states[1]);
    PlusPlus(code, 10, 2);
    PlusPlus(code, 10, 19);
    TickJnz(decode, states[2]);
  }

  lemma ForwardTicks(decode: Decoder, m: Machine, code: U64, data: U64, d1: int, d2: int)
    requires Placed(m.cpu.mem, code, d1, d2) && Decodes(decode, d1, d2) && m.cpu.rip == code
             && Plus(Plus(code, 7), d1) == data
    requires Load64(m.cpu.mem, data) != 0
    ensures var target := Load64(m.cpu.mem, data);
            Ticks(Clock(decode), m, 4) == Some(At(Tested(Loaded(m, target), target), target))
  {
    var target := Load64(m.cpu.mem, data);
    var states := Preamble(m, code, target);
    PreambleTicks(decode, m, code, data, d1, d2);
    TickJmp(decode, states[3]);
    var all := states + [At(Tested(Loaded(m, target), target), target)];
    Chain(Clock(decode), all);
  }

  /** A thunk with a target jumps there: only r11, which the calling convention gives away, and the flags change. */
  lemma ThunkForwards(m: Machine, code: U64, data: U64)
    requires MakeThunk(code, data).Some? && CodeAt(m.cpu.mem, code, MakeThunk(code, data).value) && m.cpu.rip == code
    requires Load64(m.cpu.mem, data) != 0
    ensures var target := Load64(m.cpu.mem, data);
            Ticks(Clock(Decode), m, 4)
            == Some(m.(cpu := m.cpu.(regs := m.cpu.regs[R11 := target], flags := LogicFlags(target), rip := target)))
  {
    ThunkPlaced(m.cpu.mem, code, data);
    ThunkDecodes(code, data);
    DistanceReaches(Plus(code, 7), data);
    ForwardTicks(Decode, m, code, data, Distance(Plus(code, 7), data), Distance(Plus(code, 19), Plus(data, 8)));
  }

  /** The unresolved path up to the counter. */
  function Counting(m: Machine, code: U64, counter: U64): seq<Machine> {
    var m1 := At(m.(cpu := m.cpu.(regs := m.cpu.regs[R10 := counter])), Plus(code, 19));
    [m, m1, ExecSpecial(m1, LockInc, Plus(code, 23))]
  }

  /** The rest of it. */
  function Returning(m: Machine, code: U64): seq<Machine> {
    var m1 := ExecSpecial(m, ZeroEax, Plus(code, 25));
    var m2 := ExecSpecial(m1, ZeroXmm0, Plus(code, 28));
    [m, m1, m2, ExecSpecial(m2, Ret, Plus(code, 29))]
  }

  lemma CountingTicks(decode: Decoder, m: Machine, code: U64, counter: U64, d1: int, d2: int)
    requires Placed(m.cpu.mem, code, d1, d2) && Decodes(decode, d1, d2) && m.cpu.rip == Plus(code, 12)
    requires Plus(Plus(code, 19), d2) == counter
    ensures Linked(Clock(decode), Counting(m, code, counter))
  {
    var states := Counting(m, code, counter);
    PlusPlus(code, 12, 7);
    TickLea(decode, m, counter, d2);
    PlusPlus(code, 19, 4);
    TickSpecial(decode, states[1], LockInc, LOCK_INC);
  }

  lemma ReturningTicks(decode: Decoder, m: Machine, code: U64, d1: int, d2: int)
    requires Placed(m.cpu.mem, code, d1, d2) && m.cpu.rip == Plus(code, 23)
    ensures Linked(Clock(decode), Returning(m, code))
  {
    var states := Returning(m, code);
    PlusPlus(code, 23, 2);
    TickSpecial(decode, states[0], ZeroEax, ZERO_EAX);
    PlusPlus(code, 25, 3);
    TickSpecial(decode, states[1], ZeroXmm0, ZERO_XMM0);
    PlusPlus(code, 28, 1);
    TickSpecial(decode, states[2], Ret, RET);
  }

  lemma ChainTwo(tick: Ticker, a: seq<Machine>, b: seq<Machine>)
    requires |a| > 0 && |b| > 0 && a[|a| - 1] == b[0] && Linked(tick, a) && Linked(tick, b)
    ensures Linked(tick, a + b[1..]) && (a + b[1..])[|a| + |b| - 2] == b[|b| - 1]
  {
    var all := a + b[1..];
    forall i | 0 <= i < |all| - 1 ensures tick(all[i]) == Some(all[i + 1]) {
      if i >= |a| - 1 { assert tick(b[i - (|a| - 1)]) == Some(b[i - (|a| - 1) + 1]); }
    }
  }

  lemma ChainThree(tick: Ticker, a: seq<Machine>, b: seq<Machine>, c: seq<Machine>)
    requires |a| == 4 && |b| == 3 && |c| == 4 && a[3] == b[0] && b[2] == c[0]
    requires Linked(tick, a) && Linked(tick, b) && Linked(tick, c)
    ensures Ticks(tick, a[0], 8) == Some(c[3])
  {
    ChainTwo(tick, a, b);
    ChainTwo(tick, a + b[1..], c);
    Chain(tick, a + b[1..] + c[1..]);
  }

  /** The store to the counter leaves the thunk in place. */
  lemma CountedPlaced(mem: Memory, code: U64, data: U64, v: U64)
    requires MakeThunk(code, data).Some? && CodeAt(mem, code, MakeThunk(code, data).value)
             && Apart(Plus(data, 8), code, 32)
    ensures Placed(Store64(mem, Plus(data, 8), v), code, Distance(Plus(code, 7), data),
                   Distance(Plus(code, 19), Plus(data, 8)))
  {
    StoreKeepsCode(mem, Plus(data, 8), v, code, MakeThunk(code, data).value);
    ThunkPlaced(Store64(mem, Plus(data, 8), v), code, data);
  }

  lemma CountTicks(decode: Decoder, m: Machine, code: U64, data: U64, d1: int, d2: int)
    requires Placed(m.cpu.mem, code, d1, d2) && Decodes(decode, d1, d2) && m.cpu.rip == code
             && Plus(Plus(code, 7), d1) == data
    requires Plus(Plus(code, 19), d2) == Plus(data, 8) && Load64(m.cpu.mem, data) == 0
    requires var counter := Plus(data, 8);
             Placed(Store64(m.cpu.mem, counter, Plus(Load64(m.cpu.mem, counter), 1)), code, d1, d2)
    ensures var start := Preamble(m, code, 0)[3];
            var counted := Counting(start, code, Plus(data, 8))[2];
            Ticks(Clock(decode), m, 8) == Some(Returning(counted, code)[3])
  {
    var a := Preamble(m, code, 0);
    var b := Counting(a[3], code, Plus(data, 8));
    PreambleTicks(decode, m, code, data, d1, d2);
    CountingTicks(decode, a[3], code, Plus(data, 8), d1, d2);
    ReturningTicks(decode, b[2], code, d1, d2);
    ChainThree(Clock(decode), a, b, Returning(b[2], code));
  }

  /** What an unresolved call leaves: the counter one higher, zero in rax and xmm0, control back with the caller. */
  function Counted(m: Machine, counter: U64): Machine {
    Machine(m.cpu.(regs := m.cpu.regs[R11 := 0][R10 := counter][RAX := 0][RSP := Plus(m.cpu.regs[RSP], 8)],
                   flags := LogicFlags(0), rip := Load64(m.cpu.mem, m.cpu.regs[RSP]),
                   mem := Store64(m.cpu.mem, counter, Plus(Load64(m.cpu.mem, counter), 1))), 0)
  }

  lemma CountedState(m: Machine, code: U64, counter: U64)
    requires Apart(counter, m.cpu.regs[RSP], 8)
    ensures Returning(Counting(Preamble(m, code, 0)[3], code, counter)[2], code)[3] == Counted(m, counter)
  {
    StoreKeepsLoad(m.cpu.mem, counter, Plus(Load64(m.cpu.mem, counter), 1), m.cpu.regs[RSP]);
  }

  /** A thunk without a target counts the call and returns zero to its caller. */
  lemma ThunkCounts(m: Machine, code: U64, data: U64)
    requires MakeThunk(code, data).Some? && CodeAt(m.cpu.mem, code, MakeThunk(code, data).value) && m.cpu.rip == code
    requires Load64(m.cpu.mem, data) == 0
    requires Apart(Plus(data, 8), code, 32) && Apart(Plus(data, 8), m.cpu.regs[RSP], 8)
    ensures Ticks(Clock(Decode), m, 8) == Some(Counted(m, Plus(data, 8)))
  {
    var counter := Plus(data, 8);
    ThunkPlaced(m.cpu.mem, code, data);
    ThunkDecodes(code, data);
    DistanceReaches(Plus(code, 7), data);
    DistanceReaches(Plus(code, 19), counter);
    CountedPlaced(m.cpu.mem, code, data, Plus(Load64(m.cpu.mem, counter), 1));
    CountTicks(Decode, m, code, data, Distance(Plus(code, 7), data), Distance(Plus(code, 19), counter));
    CountedState(m, code, counter);
  }

  /** With the code of all thunks below their data, in less than 2 GiB altogether, every thunk can be made, and its
      target and its counter lie outside the code of all of them. */
  lemma TableLayout(base: U64, codeSize: nat, capacity: nat, i: nat)
    requires i < capacity && 32 * capacity <= codeSize && codeSize + 16 * capacity < 0x8000_0000
    requires base + codeSize + 16 * capacity < 0x8000_0000_0000_0000
    ensures MakeThunk(base + 32 * i, base + codeSize + 16 * i).Some?
    ensures Apart(base + codeSize + 16 * i, base, codeSize) && Apart(Plus(base + codeSize + 16 * i, 8), base, codeSize)
  {
    BeyondCode(base, codeSize, base + codeSize + 16 * i);
    BeyondCode(base, codeSize, base + codeSize + 16 * i + 8);
  }

  lemma BeyondCode(base: U64, codeSize: nat, at: U64)
    requires base + codeSize <= at < 0x8000_0000_0000_0000
    ensures Apart(at, base, codeSize)
  {
    forall j | 0 <= j < codeSize ensures !Within8(Plus(base, j), at) {
      var x: U64 := base + j;
      assert Plus(base, j) == x && x < at;
      WrapIsMod(x - at);
      assert Wrap(x - at) == x - at + 0x1_0000_0000_0000_0000;
    }
  }
}
