/** PM4 command streams: packets, the register state they drive, and what a stream means. */
module Pm4 {
  import opened Base

  type U32 = x: int | 0 <= x < 0x1_0000_0000

  datatype Queue = Graphics | Compute
  datatype Stage = Vertex | Pixel | ComputeStage
  datatype Space = Type0 | Config | Context | ShaderGraphics | ShaderCompute | UConfig

  datatype Kind = Kind0 | Kind2 | Kind3

  /** A packet: its header word, the fields decoded from it, and the payload words that follow. */
  datatype Packet = Packet(kind: Kind, header: U32, base: int, opcode: int, predicated: bool, compute: bool,
                           payload: seq<U32>)

  datatype Shader = Shader(stage: Stage, address: int, resource1: Option<U32>, resource2: Option<U32>)

  datatype Command =
    | RegisterWrite(space: Space, address: int, value: U32)
    | SetNumInstances(count: U32)
    | DrawIndexAuto(indexCount: U32, drawInitiator: U32, vertex: Option<Shader>, pixel: Option<Shader>)
    | DispatchDirect(groups: (U32, U32, U32), initiator: U32, shader: Option<Shader>)

  datatype State = State(regs: map<(Space, int), U32>, instances: Option<U32>)

  const NOP := 0x10
  const DISPATCH_DIRECT := 0x15
  const DRAW_INDEX_AUTO := 0x2d
  const NUM_INSTANCES := 0x2f
  const SET_CONFIG_REG := 0x68
  const SET_CONTEXT_REG := 0x69
  const SET_SH_REG := 0x76
  const SET_UCONFIG_REG := 0x79

  // ---- Packets ----------------------------------------------------------

  function HeaderKind(header: U32): Option<Kind> {
    var t := header / 0x4000_0000;
    if t == 0 then Some(Kind0) else if t == 2 then Some(Kind2) else if t == 3 then Some(Kind3) else None
  }

  function PayloadWords(header: U32): nat
  {
    if HeaderKind(header) == Some(Kind2) then 0 else header / 0x1_0000 % 0x4000 + 1
  }

  /** The packet at the head of a stream; none for a type-1 header or a truncated payload. */
  function Head(stream: seq<U32>): (p: Option<Packet>)
    requires stream != []
    ensures p.Some? ==> p.value.header == stream[0] && |p.value.payload| < |stream|
                        && p.value.payload == stream[1..|p.value.payload| + 1]
  {
    var header := stream[0];
    var n := PayloadWords(header);
    match HeaderKind(header)
    case None => None
    case Some(kind) =>
      if n > |stream| - 1 then None
      else Some(Packet(kind, header, if kind == Kind0 then header % 0x1_0000 else 0,
                       if kind == Kind3 then header / 0x100 % 0x100 else 0,
                       kind == Kind3 && header % 2 == 1, kind == Kind3 && header / 2 % 2 == 1, stream[1..n + 1]))
  }

  function Words(p: Packet): nat { 1 + |p.payload| }

  /** The words a packet stands for. */
  function Flat(p: Packet): seq<U32> { [p.header] + p.payload }

  function FlatAll(ps: seq<Packet>): seq<U32> {
    if ps == [] then [] else Flat(ps[0]) + FlatAll(ps[1..])
  }

  /** A stream as packets, if it decodes throughout. */
  function Packets(stream: seq<U32>): Option<seq<Packet>>
    decreases |stream|
  {
    if stream == [] then Some([])
    else match Head(stream)
      case None => None
      case Some(p) => match Packets(stream[Words(p)..]) case None => None case Some(ps) => Some([p] + ps)
  }

  // ---- Register state ---------------------------------------------------

  datatype ShaderRegs = ShaderRegs(space: Space, lo: int, hi: int, resource1: int, resource2: int)

  function RegsOf(stage: Stage): ShaderRegs {
    match stage
    case Vertex => ShaderRegs(ShaderGraphics, 0x2c48, 0x2c49, 0x2c4a, 0x2c4b)
    case Pixel => ShaderRegs(ShaderGraphics, 0x2c08, 0x2c09, 0x2c0a, 0x2c0b)
    case ComputeStage => ShaderRegs(ShaderCompute, 0x2e0c, 0x2e0d, 0x2e12, 0x2e13)
  }

  function Value(s: State, space: Space, address: int): Option<U32> {
    if (space, address) in s.regs then Some(s.regs[(space, address)]) else None
  }

  /** An error where only half of the program address is set; no shader where neither half is. */
  datatype Snapshot = Incomplete | Program(shader: Option<Shader>)

  function ShaderProgram(s: State, stage: Stage): Snapshot {
    var r := RegsOf(stage);
    match (Value(s, r.space, r.lo), Value(s, r.space, r.hi))
    case (None, None) => Program(None)
    case (Some(lo), Some(hi)) =>
      Program(Some(Shader(stage, ((hi % 256) as int * 0x1_0000_0000 + lo as int) * 256, Value(s, r.space, r.resource1),
                          Value(s, r.space, r.resource2))))
    case _ => Incomplete
  }

  function Apply(s: State, c: Command): State {
    match c
    case RegisterWrite(space, address, value) => s.(regs := s.regs[(space, address) := value])
    case SetNumInstances(n) => s.(instances := Some(n))
    case _ => s
  }

  function ApplyAll(s: State, cs: seq<Command>): State {
    if cs == [] then s else Apply(ApplyAll(s, cs[..|cs| - 1]), cs[|cs| - 1])
  }

  // ---- What a packet asks for -------------------------------------------

  /** Consecutive register writes. */
  function Writes(space: Space, first: int, values: seq<U32>): seq<Command> {
    seq(|values|, i requires 0 <= i < |values| => RegisterWrite(space, first + i, values[i]))
  }

  /** A set-register packet: an offset into the window [lo, hi) and the values to put there. */
  function SetRegisters(p: Packet, space: Space, lo: int, hi: int): Option<seq<Command>>
    requires lo <= hi
  {
    if p.predicated || |p.payload| < 2 || p.payload[0] >= 0x1_0000 then None
    else if p.payload[0] >= hi - lo || |p.payload| - 1 > hi - lo - p.payload[0] then None
    else Some(Writes(space, lo + p.payload[0], p.payload[1..]))
  }

  function DrawCommand(s: State, p: Packet): Option<seq<Command>>
    requires |p.payload| == 2
  {
    match (ShaderProgram(s, Vertex), ShaderProgram(s, Pixel))
    case (Program(v), Program(x)) => Some([DrawIndexAuto(p.payload[0], p.payload[1], v, x)])
    case _ => None
  }

  function DispatchCommand(s: State, p: Packet): Option<seq<Command>>
    requires |p.payload| == 4
  {
    match ShaderProgram(s, ComputeStage)
    case Program(c) => Some([DispatchDirect((p.payload[0], p.payload[1], p.payload[2]), p.payload[3], c)])
    case Incomplete => None
  }

  /** The commands of a packet in a state; none where processing is refused. */
  function Commands(q: Queue, s: State, p: Packet): Option<seq<Command>> {
    match p.kind
    case Kind0 =>
      if |p.payload| > 0x1_0000 - p.base then None else Some(Writes(Type0, p.base, p.payload))
    case Kind2 => Some([])
    case Kind3 =>
      if p.opcode == NOP then Some([])
      else if p.opcode == SET_CONFIG_REG then SetRegisters(p, Config, 0x2000, 0x2c00)
      else if p.opcode == SET_CONTEXT_REG then SetRegisters(p, Context, 0xa000, 0xa400)
      else if p.opcode == SET_SH_REG then
        SetRegisters(p, if q == Compute || p.compute then ShaderCompute else ShaderGraphics, 0x2c00, 0x3000)
      else if p.opcode == SET_UCONFIG_REG then SetRegisters(p, UConfig, 0xc000, 0xc400)
      else if p.opcode == NUM_INSTANCES then
        if p.predicated || q != Graphics || p.compute || |p.payload| != 1 then None
        else Some([SetNumInstances(p.payload[0])])
      else if p.opcode == DRAW_INDEX_AUTO then
        if p.predicated || q != Graphics || p.compute || |p.payload| != 2 then None else DrawCommand(s, p)
      else if p.opcode == DISPATCH_DIRECT then
        if p.predicated || |p.payload| != 4 then None else DispatchCommand(s, p)
      else None
  }

  datatype Outcome = Outcome(commands: seq<Command>, state: State, packets: nat)

  /** One outcome followed by another that started from its state. */
  function Then(first: Outcome, next: Option<Outcome>): Option<Outcome> {
    match next
    case None => None
    case Some(o) => Some(Outcome(first.commands + o.commands, o.state, first.packets + o.packets))
  }

  /** How a packet turns into commands, given the state before it. */
  type Stepper = (State, Packet) -> Option<seq<Command>>

  function StepOf(q: Queue): Stepper { (s, p) => Commands(q, s, p) }

  /** What a stream means from a state: its commands and the state after them. */
  function Meaning(step: Stepper, s: State, stream: seq<U32>): Option<Outcome>
    decreases |stream|
  {
    if stream == [] then Some(Outcome([], s, 0))
    else match Head(stream)
      case None => None
      case Some(p) => match step(s, p)
        case None => None
        case Some(cs) => Then(Outcome(cs, ApplyAll(s, cs), 1), Meaning(step, ApplyAll(s, cs), stream[Words(p)..]))
  }

  // ---- Partition --------------------------------------------------------

  /** Decoded packets are exactly the stream, cut into pieces. */
  lemma {:induction false} PacketsPartition(stream: seq<U32>)
    requires Packets(stream).Some?
    ensures FlatAll(Packets(stream).value) == stream
    decreases |stream|
  {
    if stream != [] {
      var p := Head(stream).value;
      PacketsPartition(stream[Words(p)..]);
      assert Packets(stream).value[1..] == Packets(stream[Words(p)..]).value;
      assert stream == Flat(p) + stream[Words(p)..];
    }
  }

  lemma HeadOfMore(x: seq<U32>, y: seq<U32>)
    requires x != [] && Head(x).Some?
    ensures Head(x + y) == Head(x)
  {
    var n := PayloadWords(x[0]);
    assert (x + y)[0] == x[0] && (x + y)[1..n + 1] == x[1..n + 1];
  }

  function Append(ps: seq<Packet>, more: Option<seq<Packet>>): Option<seq<Packet>> {
    match more case None => None case Some(qs) => Some(ps + qs)
  }

  lemma AppendAppend(p: seq<Packet>, q: seq<Packet>, r: Option<seq<Packet>>)
    ensures Append(p, Append(q, r)) == Append(p + q, r)
  {
    if r.Some? { assert p + (q + r.value) == p + q + r.value; }
  }

  /** Packets end where they end: what follows does not change them. */
  lemma {:induction false} PacketsConcat(x: seq<U32>, y: seq<U32>)
    requires Packets(x).Some?
    ensures Packets(x + y) == Append(Packets(x).value, Packets(y))
    decreases |x|
  {
    if x == [] {
      assert x + y == y;
      if Packets(y).Some? { assert [] + Packets(y).value == Packets(y).value; }
    } else {
      var p := Head(x).value;
      HeadOfMore(x, y);
      assert (x + y)[Words(p)..] == x[Words(p)..] + y;
      PacketsConcat(x[Words(p)..], y);
      AppendAppend([p], Packets(x[Words(p)..]).value, Packets(y));
    }
  }

  // ---- Composition ------------------------------------------------------

  lemma {:induction false} ApplyConcat(s: State, x: seq<Command>, y: seq<Command>)
    ensures ApplyAll(s, x + y) == ApplyAll(ApplyAll(s, x), y)
    decreases |y|
  {
    if y == [] {
      assert x + y == x;
    } else {
      var last := |y| - 1;
      ApplyConcat(s, x, y[..last]);
      assert (x + y)[..|x + y| - 1] == x + y[..last];
    }
  }

  lemma ThenThen(x: Outcome, y: Outcome, z: Option<Outcome>)
    ensures Then(x, Then(y, z)) == Then(Then(x, Some(y)).value, z)
  {
    if z.Some? { assert x.commands + (y.commands + z.value.commands) == (x.commands + y.commands) + z.value.commands; }
  }

  lemma StepOfMore(step: Stepper, s: State, x: seq<U32>, y: seq<U32>, p: Packet, cs: seq<Command>)
    requires x != [] && Head(x) == Some(p) && step(s, p) == Some(cs)
    ensures Meaning(step, s, x + y)
            == Then(Outcome(cs, ApplyAll(s, cs), 1), Meaning(step, ApplyAll(s, cs), x[Words(p)..] + y))
  {
    HeadOfMore(x, y);
    assert (x + y)[Words(p)..] == x[Words(p)..] + y;
  }

  lemma ThenNothing(s: State, next: Option<Outcome>)
    ensures Then(Outcome([], s, 0), next) == next
  {
    if next.Some? { assert [] + next.value.commands == next.value.commands; }
  }

  /** An accepted stream is processed in two parts as it is in one. */
  lemma {:induction false} MeaningConcat(step: Stepper, s: State, x: seq<U32>, y: seq<U32>)
    requires Meaning(step, s, x).Some?
    ensures var first := Meaning(step, s, x).value;
            Meaning(step, s, x + y) == Then(first, Meaning(step, first.state, y))
    decreases |x|
  {
    if x == [] {
      assert x + y == y;
      ThenNothing(s, Meaning(step, s, y));
    } else {
      var p := Head(x).value;
      var cs := step(s, p).value;
      var s' := ApplyAll(s, cs);
      StepOfMore(step, s, x, y, p, cs);
      MeaningConcat(step, s', x[Words(p)..], y);
      var rest := Meaning(step, s', x[Words(p)..]).value;
      ThenThen(Outcome(cs, s', 1), rest, Meaning(step, rest.state, y));
    }
  }

  /** The final state is the fold of the commands. */
  lemma {:induction false} StateIsFold(step: Stepper, s: State, stream: seq<U32>)
    requires Meaning(step, s, stream).Some?
    ensures var o := Meaning(step, s, stream).value; o.state == ApplyAll(s, o.commands)
    decreases |stream|
  {
    if stream != [] {
      var p := Head(stream).value;
      var cs := step(s, p).value;
      StateIsFold(step, ApplyAll(s, cs), stream[Words(p)..]);
      ApplyConcat(s, cs, Meaning(step, ApplyAll(s, cs), stream[Words(p)..]).value.commands);
    }
  }

  // ---- Snapshots --------------------------------------------------------

  /** A draw or dispatch carries the shader programs of state `s`. */
  predicate Carries(s: State, c: Command) {
    match c
    case DrawIndexAuto(_, _, v, x) => ShaderProgram(s, Vertex) == Program(v) && ShaderProgram(s, Pixel) == Program(x)
    case DispatchDirect(_, _, x) => ShaderProgram(s, ComputeStage) == Program(x)
    case _ => true
  }

  ghost predicate AllCarry(s: State, cs: seq<Command>) {
    forall i :: 0 <= i < |cs| ==> Carries(ApplyAll(s, cs[..i]), cs[i])
  }

  lemma WritesCarry(s: State, space: Space, first: int, values: seq<U32>)
    ensures AllCarry(s, Writes(space, first, values))
  {
    var cs := Writes(space, first, values);
    assert forall i :: 0 <= i < |cs| ==> cs[i].RegisterWrite?;
  }

  lemma PacketCarries(q: Queue, s: State, p: Packet)
    requires Commands(q, s, p).Some?
    ensures AllCarry(s, Commands(q, s, p).value)
  {
    var cs := Commands(q, s, p).value;
    if p.kind == Kind0 {
      WritesCarry(s, Type0, p.base, p.payload);
    } else if |cs| == 1 {
      assert ApplyAll(s, cs[..0]) == s;
    }
  }

  lemma AllCarryConcat(s: State, x: seq<Command>, y: seq<Command>)
    requires AllCarry(s, x) && AllCarry(ApplyAll(s, x), y)
    ensures AllCarry(s, x + y)
  {
    var cs := x + y;
    forall i | 0 <= i < |cs| ensures Carries(ApplyAll(s, cs[..i]), cs[i]) {
      if i < |x| {
        assert cs[..i] == x[..i];
      } else {
        assert cs[..i] == x + y[..i - |x|];
        ApplyConcat(s, x, y[..i - |x|]);
      }
    }
  }

  ghost predicate StepsCarry(step: Stepper) {
    forall s, p :: step(s, p).Some? ==> AllCarry(s, step(s, p).value)
  }

  lemma CommandsCarry(q: Queue)
    ensures StepsCarry(StepOf(q))
  {
    forall s, p | StepOf(q)(s, p).Some? ensures AllCarry(s, StepOf(q)(s, p).value) { PacketCarries(q, s, p); }
  }

  /** Each draw or dispatch carries the shader programs that exactly the commands before it have set up. */
  lemma {:induction false} SnapshotsOfPrior(step: Stepper, s: State, stream: seq<U32>)
    requires Meaning(step, s, stream).Some? && StepsCarry(step)
    ensures AllCarry(s, Meaning(step, s, stream).value.commands)
    decreases |stream|
  {
    if stream != [] {
      var p := Head(stream).value;
      var cs := step(s, p).value;
      SnapshotsOfPrior(step, ApplyAll(s, cs), stream[Words(p)..]);
      AllCarryConcat(s, cs, Meaning(step, ApplyAll(s, cs), stream[Words(p)..]).value.commands);
    }
  }

  // ---- Theorems about a queue -------------------------------------------

  /** Two accepted submissions one after the other are one accepted submission of both: the commands are
      concatenated and the final state is the same. */
  lemma SubmissionsCompose(q: Queue, s: State, x: seq<U32>, y: seq<U32>)
    requires Meaning(StepOf(q), s, x).Some?
    ensures var first := Meaning(StepOf(q), s, x).value;
            && (Meaning(StepOf(q), s, x + y).Some? <==> Meaning(StepOf(q), first.state, y).Some?)
            && (Meaning(StepOf(q), first.state, y).Some? ==>
                  var second := Meaning(StepOf(q), first.state, y).value;
                  Meaning(StepOf(q), s, x + y).value
                  == Outcome(first.commands + second.commands, second.state, first.packets + second.packets))
  {
    MeaningConcat(StepOf(q), s, x, y);
  }

  /** In an accepted stream the final state is the fold of the commands, and every draw and dispatch carries the
      shader programs of exactly the commands before it. */
  lemma SubmissionMeans(q: Queue, s: State, stream: seq<U32>)
    requires Meaning(StepOf(q), s, stream).Some?
    ensures var o := Meaning(StepOf(q), s, stream).value; o.state == ApplyAll(s, o.commands) && AllCarry(s, o.commands)
  {
    StateIsFold(StepOf(q), s, stream);
    CommandsCarry(q);
    SnapshotsOfPrior(StepOf(q), s, stream);
  }

  // ---- Registers --------------------------------------------------------

  /** The value that the commands leave in a register. */
  function LastWritten(cs: seq<Command>, space: Space, address: int): Option<U32> {
    if cs == [] then None
    else
      var c := cs[|cs| - 1];
      if c.RegisterWrite? && c.space == space && c.address == address then Some(c.value)
      else LastWritten(cs[..|cs| - 1], space, address)
  }

  lemma {:induction false} LastWriteWins(s: State, cs: seq<Command>, space: Space, address: int)
    ensures Value(ApplyAll(s, cs), space, address)
            == (if LastWritten(cs, space, address).Some? then LastWritten(cs, space, address)
                else Value(s, space, address))
  {
    if cs != [] { LastWriteWins(s, cs[..|cs| - 1], space, address); }
  }

  function Window(space: Space): (int, int) {
    match space
    case Type0 => (0, 0x1_0000)
    case Config => (0x2000, 0x2c00)
    case Context => (0xa000, 0xa400)
    case ShaderGraphics => (0x2c00, 0x3000)
    case ShaderCompute => (0x2c00, 0x3000)
    case UConfig => (0xc000, 0xc400)
  }

  predicate InWindow(c: Command) {
    c.RegisterWrite? ==> Window(c.space).0 <= c.address < Window(c.space).1
  }

  /** No packet writes a register outside the window of its space. */
  lemma WritesStayInWindow(q: Queue, s: State, p: Packet, i: nat)
    requires 0 <= p.base && Commands(q, s, p).Some? && i < |Commands(q, s, p).value|
    ensures InWindow(Commands(q, s, p).value[i])
  {
  }

  // ---- Encoding ---------------------------------------------------------

  /** The header of a type-3 packet with `n` payload words. */
  function Header3(opcode: int, predicated: bool, compute: bool, n: int): U32
    requires 0 <= opcode < 0x100 && 1 <= n <= 0x4000
  {
    0xC000_0000 + (n - 1) * 0x1_0000 + opcode * 0x100 + (if compute then 2 else 0) + (if predicated then 1 else 0)
  }

  lemma HighFields(m: int, low: int)
    requires 0 <= m < 0x4000 && 0 <= low < 0x1_0000
    ensures var h := 0xC000_0000 + m * 0x1_0000 + low;
            h / 0x4000_0000 == 3 && h / 0x1_0000 == 0xC000 + m && (0xC000 + m) % 0x4000 == m
  {
  }

  lemma LowFields(m: int, opcode: int, flags: int)
    requires 0 <= m < 0x4000 && 0 <= opcode < 0x100 && 0 <= flags < 4
    ensures var h := 0xC000_0000 + m * 0x1_0000 + opcode * 0x100 + flags; h / 0x100 == 0xC0_0000 + m * 0x100 + opcode
    ensures (0xC0_0000 + m * 0x100 + opcode) % 0x100 == opcode
  {
  }

  lemma FlagFields(m: int, opcode: int, flags: int)
    requires 0 <= m < 0x4000 && 0 <= opcode < 0x100 && 0 <= flags < 4
    ensures var h := 0xC000_0000 + m * 0x1_0000 + opcode * 0x100 + flags; h % 2 == flags % 2 && h / 2 % 2 == flags / 2
  {
  }

  lemma Header3Fields(opcode: int, predicated: bool, compute: bool, n: int)
    requires 0 <= opcode < 0x100 && 1 <= n <= 0x4000
    ensures var h := Header3(opcode, predicated, compute, n);
            && h / 0x4000_0000 == 3 && h / 0x1_0000 % 0x4000 == n - 1 && h / 0x100 % 0x100 == opcode
            && (h % 2 == 1 <==> predicated) && (h / 2 % 2 == 1 <==> compute)
  {
    var flags := (if compute then 2 else 0) + (if predicated then 1 else 0);
    HighFields(n - 1, opcode * 0x100 + flags);
    LowFields(n - 1, opcode, flags);
    FlagFields(n - 1, opcode, flags);
    assert Header3(opcode, predicated, compute, n) == 0xC000_0000 + (n - 1) * 0x1_0000 + opcode * 0x100 + flags;
  }

  /** Decoding an encoded type-3 packet gives it back, whatever follows it. */
  lemma Type3RoundTrip(opcode: int, predicated: bool, compute: bool, payload: seq<U32>, rest: seq<U32>)
    requires 0 <= opcode < 0x100 && 1 <= |payload| <= 0x4000
    ensures var h := Header3(opcode, predicated, compute, |payload|);
            Head([h] + payload + rest) == Some(Packet(Kind3, h, 0, opcode, predicated, compute, payload))
  {
    var h := Header3(opcode, predicated, compute, |payload|);
    Header3Fields(opcode, predicated, compute, |payload|);
    var stream := [h] + payload + rest;
    assert stream[0] == h && stream[1..|payload| + 1] == payload;
  }
}
