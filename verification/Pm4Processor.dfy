/** The PM4 decoder and processor as they run: a cursor over the stream, growing commands, state committed last. */
module Pm4Processor {
  import opened Base
  import opened Pm4

  class Decoder {
    const stream: seq<U32>
    var cursor: nat

    ghost predicate Valid()
      reads this
    {
      cursor <= |stream|
    }

    constructor (stream: seq<U32>)
      ensures Valid() && this.stream == stream && cursor == 0
    {
      this.stream, cursor := stream, 0;
    }

    /** The packet at the cursor, which moves past it; nothing, and no move, at the end or on a bad packet. */
    method Next() returns (p: Option<Packet>)
      requires Valid()
      modifies this
      ensures Valid() && p == (if old(cursor) == |stream| then None else Head(stream[old(cursor)..]))
      ensures cursor == old(cursor) + (if p.Some? then Words(p.value) else 0)
    {
      if cursor == |stream| { return None; }
      var header := stream[cursor];
      var kind := HeaderKind(header);
      if kind.None? { return None; }
      var n := if kind.value == Kind2 then 0 else header / 0x1_0000 % 0x4000 + 1;
      if n > |stream| - cursor - 1 { return None; }
      var packet := Packet(kind.value, header, 0, 0, false, false, stream[cursor + 1..cursor + 1 + n]);
      if kind.value == Kind0 {
        packet := packet.(base := header % 0x1_0000);
      } else if kind.value == Kind3 {
        packet := packet.(opcode := header / 0x100 % 0x100, predicated := header % 2 == 1,
                          compute := header / 2 % 2 == 1);
      }
      assert stream[cursor..][1..n + 1] == stream[cursor + 1..cursor + 1 + n];
      cursor := cursor + 1 + n;
      p := Some(packet);
    }
  }

  /** decode_all. */
  method DecodeAll(stream: seq<U32>) returns (r: Option<seq<Packet>>)
    ensures r == Packets(stream)
  {
    var d := new Decoder(stream);
    var ps: seq<Packet> := [];
    assert stream[0..] == stream;
    assert Packets(stream).Some? ==> [] + Packets(stream).value == Packets(stream).value;
    while d.cursor < |stream|
      invariant d.Valid() && d.stream == stream
      invariant Packets(stream) == Append(ps, Packets(stream[d.cursor..]))
      decreases |stream| - d.cursor
    {
      ghost var rest := stream[d.cursor..];
      var p := d.Next();
      if p.None? { return None; }
      assert rest[Words(p.value)..] == stream[d.cursor..];
      AppendAppend(ps, [p.value], Packets(stream[d.cursor..]));
      ps := ps + [p.value];
    }
    assert ps + [] == ps && stream[d.cursor..] == [];
    r := Some(ps);
  }

  method AppendWrites(space: Space, first: int, values: seq<U32>, commands: seq<Command>) returns (r: seq<Command>)
    ensures r == commands + Writes(space, first, values)
  {
    r := commands;
    for i := 0 to |values|
      invariant r == commands + Writes(space, first, values)[..i]
    {
      r := r + [RegisterWrite(space, first + i, values[i])];
    }
  }

  /** append_register_writes. */
  method AppendRegisterWrites(p: Packet, space: Space, lo: int, hi: int, commands: seq<Command>)
    returns (r: Option<seq<Command>>)
    requires lo <= hi
    ensures r == Extend(commands, SetRegisters(p, space, lo, hi))
  {
    if p.predicated || |p.payload| < 2 || p.payload[0] >= 0x1_0000 { return None; }
    var offset, count := p.payload[0], |p.payload| - 1;
    if offset >= hi - lo || count > hi - lo - offset { return None; }
    var all := AppendWrites(space, lo + offset, p.payload[1..], commands);
    r := Some(all);
  }

  function Extend(commands: seq<Command>, more: Option<seq<Command>>): Option<seq<Command>> {
    match more case None => None case Some(cs) => Some(commands + cs)
  }

  /** One packet's commands, appended to those before it. */
  method AppendCommands(q: Queue, s: State, p: Packet, commands: seq<Command>) returns (r: Option<seq<Command>>)
    ensures r == Extend(commands, Commands(q, s, p))
  {
    r := None;
    match p.kind
    case Kind0 =>
      if |p.payload| <= 0x1_0000 - p.base {
        var all := AppendWrites(Type0, p.base, p.payload, commands);
        r := Some(all);
      }
    case Kind2 => r := Some(commands + []);
    case Kind3 =>
      if p.opcode == NOP {
        r := Some(commands + []);
      } else if p.opcode == SET_CONFIG_REG {
        r := AppendRegisterWrites(p, Config, 0x2000, 0x2c00, commands);
      } else if p.opcode == SET_CONTEXT_REG {
        r := AppendRegisterWrites(p, Context, 0xa000, 0xa400, commands);
      } else if p.opcode == SET_SH_REG {
        var space := if q == Compute || p.compute then ShaderCompute else ShaderGraphics;
        r := AppendRegisterWrites(p, space, 0x2c00, 0x3000, commands);
      } else if p.opcode == SET_UCONFIG_REG {
        r := AppendRegisterWrites(p, UConfig, 0xc000, 0xc400, commands);
      } else {
        r := AppendAction(q, s, p, commands);
      }
  }

  method AppendAction(q: Queue, s: State, p: Packet, commands: seq<Command>) returns (r: Option<seq<Command>>)
    requires p.kind == Kind3 && p.opcode !in {NOP, SET_CONFIG_REG, SET_CONTEXT_REG, SET_SH_REG, SET_UCONFIG_REG}
    ensures r == Extend(commands, Commands(q, s, p))
  {
    r := None;
    if p.predicated { return; }
    if p.opcode == NUM_INSTANCES {
      if q == Graphics && !p.compute && |p.payload| == 1 { r := Some(commands + [SetNumInstances(p.payload[0])]); }
    } else if p.opcode == DRAW_INDEX_AUTO {
      if q == Graphics && !p.compute && |p.payload| == 2 {
        var v, x := ShaderProgram(s, Vertex), ShaderProgram(s, Pixel);
        if v.Program? && x.Program? {
          r := Some(commands + [DrawIndexAuto(p.payload[0], p.payload[1], v.shader, x.shader)]);
        }
      }
    } else if p.opcode == DISPATCH_DIRECT {
      if |p.payload| == 4 {
        var c := ShaderProgram(s, ComputeStage);
        if c.Program? {
          r := Some(commands + [DispatchDirect((p.payload[0], p.payload[1], p.payload[2]), p.payload[3], c.shader)]);
        }
      }
    }
  }

  /** Applies the commands from `first` on. */
  method ApplyFrom(s: State, commands: seq<Command>, first: nat) returns (r: State)
    requires first <= |commands|
    ensures r == ApplyAll(s, commands[first..])
  {
    r := s;
    var new' := commands[first..];
    for i := 0 to |new'|
      invariant r == ApplyAll(s, new'[..i])
    {
      assert new'[..i + 1][..i] == new'[..i];
      r := Apply(r, new'[i]);
    }
    assert new'[..|new'|] == new';
  }

  datatype Submission = Submission(dwords: nat, packets: nat, commands: seq<Command>)

  class Processor {
    const queue: Queue
    var state: State

    constructor (queue: Queue)
      ensures this.queue == queue && state == State(map[], None)
    {
      this.queue, state := queue, State(map[], None);
    }

    /** The next packet's commands and the state after them; nothing if the packet or its commands are refused. */
    method TakePacket(d: Decoder, working: State, commands: seq<Command>, ghost step: Stepper)
      returns (r: Option<(State, seq<Command>)>, ghost first: Option<Outcome>)
      requires d.Valid() && d.cursor < |d.stream| && Steps(step, queue)
      modifies d
      ensures d.Valid() && StartsWith(step, working, d.stream, old(d.cursor), first, d.cursor)
      ensures r == match first case None => None case Some(o) => Some((o.state, commands + o.commands))
    {
      ghost var at := d.cursor;
      var p := d.Next();
      if p.None? { return None, None; }
      var kept := |commands|;
      var more := AppendCommands(queue, working, p.value, commands);
      assert step(working, p.value) == Commands(queue, working, p.value);
      if more.None? { return None, None; }
      ghost var cs := Commands(queue, working, p.value).value;
      assert (commands + cs)[kept..] == cs;
      var next := ApplyFrom(working, more.value, kept);
      assert d.stream[at..][Words(p.value)..] == d.stream[d.cursor..];
      return Some((next, more.value)), Some(Outcome(cs, next, 1));
    }

    /** One turn of the loop: what has been taken in grows by one packet, or the stream means nothing. */
    method Advance(d: Decoder, working: State, commands: seq<Command>, ghost packets: nat, ghost s0: State,
                   ghost step: Stepper)
      returns (r: Option<(State, seq<Command>)>)
      requires d.Valid() && d.cursor < |d.stream| && Steps(step, queue)
      requires InProgress(step, s0, d.stream, Outcome(commands, working, packets), d.cursor)
      modifies d
      ensures d.Valid()
      ensures r.None? ==> Meaning(step, s0, d.stream).None?
      ensures r.Some? ==> old(d.cursor) < d.cursor
                          && InProgress(step, s0, d.stream, Outcome(r.value.1, r.value.0, packets + 1), d.cursor)
    {
      ghost var at, first := d.cursor, None;
      r, first := TakePacket(d, working, commands, step);
      Absorbs(step, s0, d.stream, Outcome(commands, working, packets), at, first, d.cursor);
    }

    /** The whole stream, packet by packet, on a copy of the state. */
    method Interpret(stream: seq<U32>, ghost step: Stepper) returns (r: Option<(State, Submission)>)
      requires Steps(step, queue)
      ensures r.Some? <==> Meaning(step, state, stream).Some?
      ensures r.Some? ==> var o := Meaning(step, state, stream).value;
                          r.value == (o.state, Submission(|stream|, o.packets, o.commands))
    {
      var working, commands, packets := state, [], 0;
      var d := new Decoder(stream);
      Begins(step, state, stream);
      while d.cursor < |stream|
        invariant d.Valid() && d.stream == stream && fresh(d)
        invariant InProgress(step, state, stream, Outcome(commands, working, packets), d.cursor)
        decreases |stream| - d.cursor
      {
        var taken := Advance(d, working, commands, packets, state, step);
        if taken.None? { return None; }
        working, commands, packets := taken.value.0, taken.value.1, packets + 1;
      }
      Ends(step, state, stream, Outcome(commands, working, packets));
      r := Some((working, Submission(|stream|, packets, commands)));
    }

    /** All of an accepted stream takes effect; a refused one changes nothing. */
    method Process(stream: seq<U32>) returns (r: Option<Submission>)
      modifies this
      ensures r.Some? <==> Meaning(StepOf(queue), old(state), stream).Some?
      ensures r.Some? ==> var o := Meaning(StepOf(queue), old(state), stream).value;
                          state == o.state && r.value == Submission(|stream|, o.packets, o.commands)
      ensures r.None? ==> state == old(state)
    {
      var done := Interpret(stream, StepOf(queue));
      if done.None? { return None; }
      state := done.value.0;
      r := Some(done.value.1);
    }
  }

  ghost predicate Steps(step: Stepper, q: Queue) {
    forall s, p {:trigger Commands(q, s, p)} :: step(s, p) == Commands(q, s, p)
  }

  /** From `at` the stream means `first`, one packet's outcome, followed by what it means from `next` on. */
  ghost predicate StartsWith(step: Stepper, s: State, stream: seq<U32>, at: nat, first: Option<Outcome>, next: nat)
    requires at <= |stream| && next <= |stream|
  {
    match first
    case None => Meaning(step, s, stream[at..]).None?
    case Some(o) => o.packets == 1 && at < next
                    && Meaning(step, s, stream[at..]) == Then(o, Meaning(step, o.state, stream[next..]))
  }

  /** The stream means what has been taken in, followed by what the rest means. */
  ghost predicate InProgress(step: Stepper, s0: State, stream: seq<U32>, sofar: Outcome, at: nat)
    requires at <= |stream|
  {
    Meaning(step, s0, stream) == Then(sofar, Meaning(step, sofar.state, stream[at..]))
  }

  lemma Begins(step: Stepper, s: State, stream: seq<U32>)
    ensures InProgress(step, s, stream, Outcome([], s, 0), 0)
  {
    assert stream[0..] == stream;
    ThenNothing(s, Meaning(step, s, stream));
  }

  lemma Ends(step: Stepper, s: State, stream: seq<U32>, sofar: Outcome)
    requires InProgress(step, s, stream, sofar, |stream|)
    ensures Meaning(step, s, stream) == Some(sofar)
  {
    assert stream[|stream|..] == [] && sofar.commands + [] == sofar.commands;
  }

  /** Taking in one packet keeps the meaning of the whole stream. */
  lemma Absorbs(step: Stepper, s0: State, stream: seq<U32>, sofar: Outcome, at: nat, first: Option<Outcome>, next: nat)
    requires at <= |stream| && next <= |stream| && InProgress(step, s0, stream, sofar, at)
    requires StartsWith(step, sofar.state, stream, at, first, next)
    ensures if first.None? then Meaning(step, s0, stream).None?
            else InProgress(step, s0, stream, Then(sofar, first).value, next)
  {
    if first.Some? { ThenThen(sofar, first.value, Meaning(step, first.value.state, stream[next..])); }
  }
}
