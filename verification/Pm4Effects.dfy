/** What encoded packets do to the register state and to the commands, word by word. */
module Pm4Effects {
  import opened Base
  import opened Pm4

  // ---- Encoded packets --------------------------------------------------

  function Type3(opcode: int, predicated: bool, compute: bool, payload: seq<U32>): seq<U32>
    requires 0 <= opcode < 0x100 && 1 <= |payload| <= 0x4000
  {
    [Header3(opcode, predicated, compute, |payload|)] + payload
  }

  function Type0At(base: int, values: seq<U32>): seq<U32>
    requires 0 <= base < 0x1_0000 && 1 <= |values| <= 0x4000
  {
    [(|values| - 1) * 0x1_0000 + base] + values
  }

  lemma Type0Fields(base: int, n: int)
    requires 0 <= base < 0x1_0000 && 1 <= n <= 0x4000
    ensures var h := (n - 1) * 0x1_0000 + base;
            h / 0x4000_0000 == 0 && h / 0x1_0000 == n - 1 && (n - 1) % 0x4000 == n - 1 && h % 0x1_0000 == base
  {
  }

  /** Decoding an encoded type-0 packet gives it back, whatever follows it. */
  lemma Type0RoundTrip(base: int, values: seq<U32>, rest: seq<U32>)
    requires 0 <= base < 0x1_0000 && 1 <= |values| <= 0x4000
    ensures Head(Type0At(base, values) + rest)
            == Some(Packet(Kind0, (|values| - 1) * 0x1_0000 + base, base, 0, false, false, values))
  {
    Type0Fields(base, |values|);
    var stream := Type0At(base, values) + rest;
    assert stream[0] == (|values| - 1) * 0x1_0000 + base && stream[1..|values| + 1] == values;
  }

  /** A stream of one packet means what that packet asks for. */
  lemma OnePacket(q: Queue, s: State, stream: seq<U32>, p: Packet)
    requires stream != [] && Head(stream) == Some(p) && Words(p) == |stream|
    ensures Meaning(StepOf(q), s, stream)
            == match Commands(q, s, p) case None => None case Some(cs) => Some(Outcome(cs, ApplyAll(s, cs), 1))
  {
    assert stream[Words(p)..] == [];
    var cs := Commands(q, s, p);
    if cs.Some? {
      assert cs.value + [] == cs.value;
      assert Meaning(StepOf(q), ApplyAll(s, cs.value), []) == Some(Outcome([], ApplyAll(s, cs.value), 0));
    }
  }

  lemma OneType3(q: Queue, s: State, opcode: int, predicated: bool, compute: bool, payload: seq<U32>)
    returns (p: Packet)
    requires 0 <= opcode < 0x100 && 1 <= |payload| <= 0x4000
    ensures p == Packet(Kind3, p.header, 0, opcode, predicated, compute, payload)
    ensures Meaning(StepOf(q), s, Type3(opcode, predicated, compute, payload))
            == match Commands(q, s, p) case None => None case Some(cs) => Some(Outcome(cs, ApplyAll(s, cs), 1))
  {
    Type3RoundTrip(opcode, predicated, compute, payload, []);
    var stream := Type3(opcode, predicated, compute, payload);
    assert stream + [] == stream;
    p := Head(stream).value;
    OnePacket(q, s, stream, p);
  }

  // ---- Register packets -------------------------------------------------

  /** `s2` is `s1` but for the registers of `space` from `first` on, which hold `values` in order. */
  ghost predicate Holds(s1: State, s2: State, space: Space, first: int, values: seq<U32>) {
    && s2.instances == s1.instances
    && (forall i :: 0 <= i < |values| ==> Value(s2, space, first + i) == Some(values[i]))
    && forall sp, a :: sp != space || a < first || first + |values| <= a ==> Value(s2, sp, a) == Value(s1, sp, a)
  }

  lemma {:induction false} WritesHold(s: State, space: Space, first: int, values: seq<U32>)
    ensures Holds(s, ApplyAll(s, Writes(space, first, values)), space, first, values)
    decreases |values|
  {
    if values != [] {
      var n := |values| - 1;
      WritesHold(s, space, first, values[..n]);
      assert Writes(space, first, values)[..n] == Writes(space, first, values[..n]);
      var before := ApplyAll(s, Writes(space, first, values[..n]));
      var after := ApplyAll(s, Writes(space, first, values));
      assert after == Apply(before, RegisterWrite(space, first + n, values[n]));
      forall i | 0 <= i < |values| ensures Value(after, space, first + i) == Some(values[i]) {
        if i < n { assert Value(before, space, first + i) == Some(values[..n][i]); }
      }
    }
  }

  /** The register space of a set-register opcode on a queue. */
  function SpaceOf(q: Queue, opcode: int, compute: bool): Space {
    if opcode == SET_CONFIG_REG then Config
    else if opcode == SET_CONTEXT_REG then Context
    else if opcode == SET_UCONFIG_REG then UConfig
    else if q == Compute || compute then ShaderCompute
    else ShaderGraphics
  }

  predicate SetsRegisters(opcode: int) {
    opcode == SET_CONFIG_REG || opcode == SET_CONTEXT_REG || opcode == SET_SH_REG || opcode == SET_UCONFIG_REG
  }

  /** One packet that only puts `values` into the registers of `space` from `first` on, in order. */
  ghost predicate PutsAll(s: State, m: Outcome, space: Space, first: int, values: seq<U32>) {
    && m.packets == 1 && Holds(s, m.state, space, first, values) && |m.commands| == |values|
    && forall i :: 0 <= i < |values| ==> m.commands[i] == RegisterWrite(space, first + i, values[i])
  }

  lemma WritesPutAll(s: State, space: Space, first: int, values: seq<U32>)
    ensures var cs := Writes(space, first, values); PutsAll(s, Outcome(cs, ApplyAll(s, cs), 1), space, first, values)
  {
    WritesHold(s, space, first, values);
  }

  /** A set-register packet is accepted exactly where its values fit the window of its space. */
  lemma SetterCommands(q: Queue, s: State, p: Packet)
    requires p.kind == Kind3 && SetsRegisters(p.opcode)
    ensures var space := SpaceOf(q, p.opcode, p.compute);
            Commands(q, s, p)
            == if !p.predicated && 2 <= |p.payload|
                  && Window(space).0 + p.payload[0] + |p.payload| - 1 <= Window(space).1
               then Some(Writes(space, Window(space).0 + p.payload[0], p.payload[1..])) else None
  {
  }

  /** Accepted exactly where the values fit the window from offset `o` on, and then put there. */
  ghost predicate SetsInWindow(s: State, space: Space, o: U32, values: seq<U32>, m: Option<Outcome>) {
    && (m.Some? <==> Window(space).0 + o + |values| <= Window(space).1)
    && (m.Some? ==> PutsAll(s, m.value, space, Window(space).0 + o, values))
  }

  lemma SetterPutsAll(q: Queue, s: State, p: Packet, o: U32, values: seq<U32>, m: Option<Outcome>)
    requires p.kind == Kind3 && SetsRegisters(p.opcode) && !p.predicated && p.payload == [o] + values && values != []
    requires m == match Commands(q, s, p) case None => None case Some(cs) => Some(Outcome(cs, ApplyAll(s, cs), 1))
    ensures SetsInWindow(s, SpaceOf(q, p.opcode, p.compute), o, values, m)
  {
    SetterCommands(q, s, p);
    assert p.payload[1..] == values;
    WritesPutAll(s, SpaceOf(q, p.opcode, p.compute), Window(SpaceOf(q, p.opcode, p.compute)).0 + o, values);
  }

  /** A set-register packet with offset `o` is accepted exactly where its values fit the window of its space; it then
      puts value number `i` into register `lo + o + i`, in that order, and changes nothing else. */
  lemma SetRegisterPacket(q: Queue, s: State, opcode: int, compute: bool, o: U32, values: seq<U32>)
    returns (m: Option<Outcome>)
    requires SetsRegisters(opcode) && 1 <= |values| < 0x4000
    ensures m == Meaning(StepOf(q), s, Type3(opcode, false, compute, [o] + values))
    ensures SetsInWindow(s, SpaceOf(q, opcode, compute), o, values, m)
  {
    var payload := [o] + values;
    var p := OneType3(q, s, opcode, false, compute, payload);
    m := Meaning(StepOf(q), s, Type3(opcode, false, compute, payload));
    SetterPutsAll(q, s, p, o, values, m);
  }

  /** A type-0 packet is accepted exactly where its registers stay below 0x10000; it then puts its payload words into
      the registers from its base on, in that order, and changes nothing else. */
  lemma Type0Packet(q: Queue, s: State, base: int, values: seq<U32>)
    requires 0 <= base < 0x1_0000 && 1 <= |values| <= 0x4000
    ensures var m := Meaning(StepOf(q), s, Type0At(base, values));
            && (m.Some? <==> base + |values| <= 0x1_0000)
            && (m.Some? ==> PutsAll(s, m.value, Type0, base, values))
  {
    Type0RoundTrip(base, values, []);
    var stream := Type0At(base, values);
    assert stream + [] == stream;
    OnePacket(q, s, stream, Head(stream).value);
    WritesPutAll(s, Type0, base, values);
  }

  // ---- Other packets ----------------------------------------------------

  /** What a packet other than a set-register one means, from its payload words and the registers alone. */
  ghost predicate Asked(q: Queue, s: State, opcode: int, compute: bool, payload: seq<U32>, m: Option<Outcome>) {
    if opcode == NOP then m == Some(Outcome([], s, 1))
    else if opcode == NUM_INSTANCES then
      if q == Graphics && !compute && |payload| == 1
      then m == Some(Outcome([SetNumInstances(payload[0])], State(s.regs, Some(payload[0])), 1))
      else m == None
    else if opcode == DRAW_INDEX_AUTO then
      if q == Graphics && !compute && |payload| == 2 && Settled(s, Vertex) && Settled(s, Pixel)
      then exists v, x ::
             && BoundTo(s, Vertex, v) && BoundTo(s, Pixel, x)
             && m == Some(Outcome([DrawIndexAuto(payload[0], payload[1], v, x)], s, 1))
      else m == None
    else if opcode == DISPATCH_DIRECT then
      if |payload| == 4 && Settled(s, ComputeStage)
      then exists x ::
             && BoundTo(s, ComputeStage, x)
             && m == Some(Outcome([DispatchDirect((payload[0], payload[1], payload[2]), payload[3], x)], s, 1))
      else m == None
    else m == None
  }

  /** The low register of a stage's program address; the high one follows it. */
  function ProgramRegister(stage: Stage): int {
    match stage case Vertex => 0x2c48 case Pixel => 0x2c08 case ComputeStage => 0x2e0c
  }

  function ResourceRegister(stage: Stage): int {
    match stage case Vertex => 0x2c4a case Pixel => 0x2c0a case ComputeStage => 0x2e12
  }

  function ShaderSpace(stage: Stage): Space {
    if stage == ComputeStage then ShaderCompute else ShaderGraphics
  }

  /** Both halves of the program address are set, or neither is. */
  predicate Settled(s: State, stage: Stage) {
    Value(s, ShaderSpace(stage), ProgramRegister(stage)).Some?
    <==> Value(s, ShaderSpace(stage), ProgramRegister(stage) + 1).Some?
  }

  /** The shader that the registers describe: the low register is bits 8 to 39 of the address, the low byte of the
      high one bits 40 to 47, and the two resource words come along as they are. */
  predicate BoundTo(s: State, stage: Stage, shader: Option<Shader>) {
    var space := ShaderSpace(stage);
    var lo, hi := Value(s, space, ProgramRegister(stage)), Value(s, space, ProgramRegister(stage) + 1);
    match shader
    case None => lo.None? && hi.None?
    case Some(x) =>
      && lo.Some? && hi.Some? && x.stage == stage
      && x.address % 0x100 == 0 && x.address / 0x100 % 0x1_0000_0000 == lo.value
      && x.address / 0x100_0000_0000 == hi.value % 0x100
      && x.resource1 == Value(s, space, ResourceRegister(stage))
      && x.resource2 == Value(s, space, ResourceRegister(stage) + 1)
  }

  lemma AddressFields(lo: U32, b: int)
    requires 0 <= b < 0x100
    ensures var a := (b * 0x1_0000_0000 + lo) * 256;
            a % 0x100 == 0 && a / 0x100 == b * 0x1_0000_0000 + lo && (b * 0x1_0000_0000 + lo) % 0x1_0000_0000 == lo
            && a / 0x100_0000_0000 == b
  {
  }

  /** The program snapshot is the one the registers describe; there is none exactly where only half is set. */
  lemma SnapshotIsBound(s: State, stage: Stage)
    ensures ShaderProgram(s, stage).Program? <==> Settled(s, stage)
    ensures ShaderProgram(s, stage).Program? ==> BoundTo(s, stage, ShaderProgram(s, stage).shader)
  {
    var space := ShaderSpace(stage);
    var lo, hi := Value(s, space, ProgramRegister(stage)), Value(s, space, ProgramRegister(stage) + 1);
    if lo.Some? && hi.Some? { AddressFields(lo.value, hi.value % 0x100); }
  }

  /** The registers describe one shader at most. */
  lemma BoundOnce(s: State, stage: Stage, x: Option<Shader>, y: Option<Shader>)
    requires BoundTo(s, stage, x) && BoundTo(s, stage, y)
    ensures x == y
  {
    if x.Some? && y.Some? {
      assert x.value.address / 0x100 == y.value.address / 0x100 by {
        AddressSplit(x.value.address);
        AddressSplit(y.value.address);
      }
    }
  }

  lemma AddressSplit(a: int)
    ensures a / 0x100 == a / 0x100_0000_0000 * 0x1_0000_0000 + a / 0x100 % 0x1_0000_0000
  {
  }

  lemma StateAfterAction(s: State, c: Command)
    requires c.DrawIndexAuto? || c.DispatchDirect? || c.SetNumInstances?
    ensures ApplyAll(s, [c]) == if c.SetNumInstances? then State(s.regs, Some(c.count)) else s
  {
    assert [c][..0] == [];
    assert ApplyAll(s, [c]) == Apply(ApplyAll(s, []), c);
  }

  /** Every opcode but the set-register ones does what its payload words ask, and is refused otherwise. */
  lemma ActionPacket(q: Queue, s: State, opcode: int, compute: bool, payload: seq<U32>)
    requires 0 <= opcode < 0x100 && !SetsRegisters(opcode) && 1 <= |payload| <= 0x4000
    ensures Asked(q, s, opcode, compute, payload,
                  Meaning(StepOf(q), s, Type3(opcode, false, compute, payload)))
  {
    var p := OneType3(q, s, opcode, false, compute, payload);
    SnapshotIsBound(s, Vertex);
    SnapshotIsBound(s, Pixel);
    SnapshotIsBound(s, ComputeStage);
    var cs := Commands(q, s, p);
    if cs.Some? && |cs.value| == 1 { StateAfterAction(s, cs.value[0]); }
  }

  /** A predicated packet is refused, unless it asks for nothing. */
  lemma PredicatedPacket(q: Queue, s: State, opcode: int, compute: bool, payload: seq<U32>)
    requires 0 <= opcode < 0x100 && 1 <= |payload| <= 0x4000
    ensures Meaning(StepOf(q), s, Type3(opcode, true, compute, payload))
            == if opcode == NOP then Some(Outcome([], s, 1)) else None
  {
    var p := OneType3(q, s, opcode, true, compute, payload);
  }

  /** A type-2 packet is its header alone and asks for nothing. */
  lemma Type2Packet(q: Queue, s: State, header: U32, rest: seq<U32>)
    requires 0x8000_0000 <= header < 0xC000_0000
    ensures Meaning(StepOf(q), s, [header] + rest) == Then(Outcome([], s, 1), Meaning(StepOf(q), s, rest))
  {
    var stream := [header] + rest;
    var p := Head(stream).value;
    assert p.kind == Kind2 && stream[Words(p)..] == rest;
    assert StepOf(q)(s, p) == Some([]) && ApplyAll(s, []) == s;
  }

  /** A type-1 header, or a payload cut short, refuses the stream. */
  lemma BadPacket(q: Queue, s: State, stream: seq<U32>)
    requires stream != []
    requires || 0x4000_0000 <= stream[0] < 0x8000_0000
             || (!(0x8000_0000 <= stream[0] < 0xC000_0000) && |stream| < 2 + stream[0] / 0x1_0000 % 0x4000)
    ensures Meaning(StepOf(q), s, stream).None?
  {
    assert Head(stream).None?;
  }

  // ---- Whole streams ----------------------------------------------------

  /** What a packet puts into a register, if that is one of those it sets. */
  function Puts(q: Queue, p: Packet, space: Space, a: int): Option<U32> {
    if p.kind == Kind0 then
      if space == Type0 && 0 <= a - p.base < |p.payload| then Some(p.payload[a - p.base]) else None
    else if p.kind == Kind3 && SetsRegisters(p.opcode) && SpaceOf(q, p.opcode, p.compute) == space
         && p.payload != [] then
      var i := a - Window(space).0 - p.payload[0];
      if 0 <= i < |p.payload| - 1 then Some(p.payload[1 + i]) else None
    else None
  }

  /** What the last packet to set a register puts into it. */
  function LastPut(q: Queue, ps: seq<Packet>, space: Space, a: int): Option<U32> {
    if ps == [] then None
    else
      var later := LastPut(q, ps[1..], space, a);
      if later.Some? then later else Puts(q, ps[0], space, a)
  }

  /** A register after writes: one of the values, or what it held before. */
  lemma WrittenValue(s: State, own: Space, first: int, values: seq<U32>, space: Space, a: int)
    ensures Value(ApplyAll(s, Writes(own, first, values)), space, a)
            == if space == own && 0 <= a - first < |values| then Some(values[a - first]) else Value(s, space, a)
  {
    WritesHold(s, own, first, values);
    if space == own && 0 <= a - first < |values| {
      var s' := ApplyAll(s, Writes(own, first, values));
      assert Value(s', own, first + (a - first)) == Some(values[a - first]);
    }
  }

  /** A packet that sets no register leaves the registers as they are. */
  lemma ActionLeaves(q: Queue, s: State, p: Packet)
    requires Commands(q, s, p).Some? && (p.kind == Kind2 || (p.kind == Kind3 && !SetsRegisters(p.opcode)))
    ensures ApplyAll(s, Commands(q, s, p).value).regs == s.regs
  {
    var cs := Commands(q, s, p).value;
    if cs != [] { StateAfterAction(s, cs[0]); }
  }

  lemma SetterPuts(q: Queue, s: State, p: Packet, space: Space, a: int)
    requires p.kind == Kind3 && SetsRegisters(p.opcode) && Commands(q, s, p).Some?
    ensures Value(ApplyAll(s, Commands(q, s, p).value), space, a)
            == if Puts(q, p, space, a).Some? then Puts(q, p, space, a) else Value(s, space, a)
  {
    SetterCommands(q, s, p);
    var own := SpaceOf(q, p.opcode, p.compute);
    WrittenValue(s, own, Window(own).0 + p.payload[0], p.payload[1..], space, a);
  }

  lemma PacketPuts(q: Queue, s: State, p: Packet, space: Space, a: int)
    requires Commands(q, s, p).Some?
    ensures Value(ApplyAll(s, Commands(q, s, p).value), space, a)
            == if Puts(q, p, space, a).Some? then Puts(q, p, space, a) else Value(s, space, a)
  {
    if p.kind == Kind0 {
      WrittenValue(s, Type0, p.base, p.payload, space, a);
    } else if p.kind == Kind3 && SetsRegisters(p.opcode) {
      SetterPuts(q, s, p, space, a);
    } else {
      ActionLeaves(q, s, p);
    }
  }

  /** After an accepted stream a register holds the word that the last packet to set it put there. */
  lemma {:induction false} RegistersHoldLastPut(q: Queue, s: State, stream: seq<U32>, space: Space, a: int)
    requires Meaning(StepOf(q), s, stream).Some?
    ensures Packets(stream).Some?
    ensures var put := LastPut(q, Packets(stream).value, space, a);
            Value(Meaning(StepOf(q), s, stream).value.state, space, a)
            == if put.Some? then put else Value(s, space, a)
    decreases |stream|
  {
    if stream != [] {
      var p := Head(stream).value;
      var s' := ApplyAll(s, Commands(q, s, p).value);
      assert StepOf(q)(s, p) == Commands(q, s, p);
      RegistersHoldLastPut(q, s', stream[Words(p)..], space, a);
      PacketPuts(q, s, p, space, a);
      assert Packets(stream).value[1..] == Packets(stream[Words(p)..]).value;
    }
  }

  // ---- A program, from its registers to the draw ------------------------

  /** The two words that set up a program address. */
  function AddressWords(a: int): seq<U32>
    requires 0 <= a < 0x1_0000_0000_0000
  {
    [a / 0x100 % 0x1_0000_0000, a / 0x100_0000_0000]
  }

  /** Sets a stage's program address: by offset into the shader window, on the compute side for a compute shader. */
  function SetProgram(stage: Stage, a: int): seq<U32>
    requires 0 <= a < 0x1_0000_0000_0000
  {
    Type3(SET_SH_REG, false, stage == ComputeStage, [ProgramRegister(stage) - 0x2c00] + AddressWords(a))
  }

  /** A stage has a program, at address `a`. */
  predicate Runs(s: State, stage: Stage, a: int) {
    match ShaderProgram(s, stage) case Program(Some(x)) => x.address == a case _ => false
  }

  /** Registers that hold an address's two words give that address. */
  lemma WordsGiveAddress(s: State, stage: Stage, a: int)
    requires 0 <= a < 0x1_0000_0000_0000 && a % 0x100 == 0
    requires Value(s, ShaderSpace(stage), ProgramRegister(stage)) == Some(AddressWords(a)[0])
    requires Value(s, ShaderSpace(stage), ProgramRegister(stage) + 1) == Some(AddressWords(a)[1])
    ensures Runs(s, stage, a)
  {
    AddressSplit(a);
  }

  /** A stage's snapshot depends on its own registers only. */
  lemma SnapshotStays(s1: State, s2: State, stage: Stage, first: int, values: seq<U32>, other: Stage)
    requires other != stage && first == ProgramRegister(stage) && |values| == 2
    requires Holds(s1, s2, ShaderSpace(stage), first, values)
    ensures ShaderProgram(s2, other) == ShaderProgram(s1, other)
  {
    var r := RegsOf(other);
    assert Value(s2, r.space, r.lo) == Value(s1, r.space, r.lo) && Value(s2, r.space, r.hi) == Value(s1, r.space, r.hi);
    assert Value(s2, r.space, r.resource1) == Value(s1, r.space, r.resource1);
    assert Value(s2, r.space, r.resource2) == Value(s1, r.space, r.resource2);
  }

  /** After setting a program address on a queue that serves the stage, the stage's registers hold its two words and
      nothing else has changed. */
  lemma ProgramWords(q: Queue, s: State, stage: Stage, a: int) returns (m: Outcome)
    requires 0 <= a < 0x1_0000_0000_0000 && a % 0x100 == 0 && (q == Graphics || stage == ComputeStage)
    ensures Meaning(StepOf(q), s, SetProgram(stage, a)) == Some(m)
    ensures |m.commands| == 2 && Holds(s, m.state, ShaderSpace(stage), ProgramRegister(stage), AddressWords(a))
  {
    var set' := SetRegisterPacket(q, s, SET_SH_REG, stage == ComputeStage, ProgramRegister(stage) - 0x2c00,
                                  AddressWords(a));
    assert SpaceOf(q, SET_SH_REG, stage == ComputeStage) == ShaderSpace(stage);
    m := set'.value;
  }

  /** The stage's snapshot is then that address, and the other stages keep theirs. */
  lemma ProgramSet(q: Queue, s: State, stage: Stage, a: int) returns (m: Outcome)
    requires 0 <= a < 0x1_0000_0000_0000 && a % 0x100 == 0 && (q == Graphics || stage == ComputeStage)
    ensures Meaning(StepOf(q), s, SetProgram(stage, a)) == Some(m) && |m.commands| == 2
    ensures Runs(m.state, stage, a)
    ensures forall other :: other != stage ==> ShaderProgram(m.state, other) == ShaderProgram(s, other)
  {
    m := ProgramWords(q, s, stage, a);
    var at, words := ProgramRegister(stage), AddressWords(a);
    assert Value(m.state, ShaderSpace(stage), at + 0) == Some(words[0])
        && Value(m.state, ShaderSpace(stage), at + 1) == Some(words[1]);
    WordsGiveAddress(m.state, stage, a);
    forall other | other != stage ensures ShaderProgram(m.state, other) == ShaderProgram(s, other) {
      SnapshotStays(s, m.state, stage, at, words, other);
    }
  }

  lemma Followed(q: Queue, s: State, x: seq<U32>, y: seq<U32>, first: Outcome, second: Outcome) returns (m: Outcome)
    requires Meaning(StepOf(q), s, x) == Some(first) && Meaning(StepOf(q), first.state, y) == Some(second)
    ensures Meaning(StepOf(q), s, x + y) == Some(m)
    ensures m.commands == first.commands + second.commands && m.state == second.state
  {
    SubmissionsCompose(q, s, x, y);
    m := Meaning(StepOf(q), s, x + y).value;
  }

  predicate Dispatches(c: Command, a: int, groups: (U32, U32, U32), initiator: U32) {
    c.DispatchDirect? && c.groups == groups && c.initiator == initiator && c.shader.Some? && c.shader.value.address == a
  }

  predicate Draws(c: Command, v: int, x: int, count: U32, initiator: U32) {
    && c.DrawIndexAuto? && c.indexCount == count && c.drawInitiator == initiator
    && c.vertex.Some? && c.vertex.value.address == v && c.pixel.Some? && c.pixel.value.address == x
  }

  function Dispatch(q: Queue, groups: (U32, U32, U32), initiator: U32): seq<U32> {
    Type3(DISPATCH_DIRECT, false, q == Compute, [groups.0, groups.1, groups.2, initiator])
  }

  function Draw(count: U32, initiator: U32): seq<U32> {
    Type3(DRAW_INDEX_AUTO, false, false, [count, initiator])
  }

  lemma DispatchMeans(q: Queue, s: State, a: int, groups: (U32, U32, U32), initiator: U32) returns (m: Outcome)
    requires Runs(s, ComputeStage, a)
    ensures Meaning(StepOf(q), s, Dispatch(q, groups, initiator)) == Some(m)
    ensures |m.commands| == 1 && Dispatches(m.commands[0], a, groups, initiator)
  {
    var p := OneType3(q, s, DISPATCH_DIRECT, false, q == Compute, [groups.0, groups.1, groups.2, initiator]);
    m := Meaning(StepOf(q), s, Dispatch(q, groups, initiator)).value;
  }

  lemma DrawMeans(s: State, v: int, x: int, count: U32, initiator: U32) returns (m: Outcome)
    requires Runs(s, Vertex, v) && Runs(s, Pixel, x)
    ensures Meaning(StepOf(Graphics), s, Draw(count, initiator)) == Some(m)
    ensures |m.commands| == 1 && Draws(m.commands[0], v, x, count, initiator)
  {
    var p := OneType3(Graphics, s, DRAW_INDEX_AUTO, false, false, [count, initiator]);
    m := Meaning(StepOf(Graphics), s, Draw(count, initiator)).value;
  }

  /** The compute program last set up is the one a dispatch runs. */
  lemma DispatchRunsProgram(q: Queue, s: State, a: int, groups: (U32, U32, U32), initiator: U32)
    returns (m: Outcome)
    requires 0 <= a < 0x1_0000_0000_0000 && a % 0x100 == 0
    ensures Meaning(StepOf(q), s, SetProgram(ComputeStage, a) + Dispatch(q, groups, initiator)) == Some(m)
    ensures |m.commands| == 3 && Dispatches(m.commands[2], a, groups, initiator)
  {
    var first := ProgramSet(q, s, ComputeStage, a);
    var second := DispatchMeans(q, first.state, a, groups, initiator);
    m := Followed(q, s, SetProgram(ComputeStage, a), Dispatch(q, groups, initiator), first, second);
  }

  /** The vertex and pixel programs last set up are the ones a draw runs, each in its own place. */
  lemma DrawRunsPrograms(s: State, v: int, x: int, count: U32, initiator: U32) returns (m: Outcome)
    requires 0 <= v < 0x1_0000_0000_0000 && v % 0x100 == 0 && 0 <= x < 0x1_0000_0000_0000 && x % 0x100 == 0
    ensures Meaning(StepOf(Graphics), s, SetProgram(Vertex, v) + SetProgram(Pixel, x) + Draw(count, initiator))
            == Some(m)
    ensures |m.commands| == 5 && Draws(m.commands[4], v, x, count, initiator)
  {
    var first := ProgramSet(Graphics, s, Vertex, v);
    var second := ProgramSet(Graphics, first.state, Pixel, x);
    assert Runs(second.state, Vertex, v);
    var both := Followed(Graphics, s, SetProgram(Vertex, v), SetProgram(Pixel, x), first, second);
    var third := DrawMeans(both.state, v, x, count, initiator);
    m := Followed(Graphics, s, SetProgram(Vertex, v) + SetProgram(Pixel, x), Draw(count, initiator), both, third);
  }
}
