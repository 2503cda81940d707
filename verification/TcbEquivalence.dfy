/** Running the patched jump and its thunk has the effect of the original TCB access. */
module TcbEquivalence {
  import opened Base
  import opened X86
  import opened TcbThunk

  // ---- Memory and addresses ---------------------------------------------

  lemma PlusPlus(a: U64, i: int, j: int)
    ensures Plus(Plus(a, i), j) == Plus(a, i + j)
  {
    WrapIsMod(a + i);
    WrapIsMod(Plus(a, i) + j);
    WrapIsMod(a + (i + j));
  }

  lemma PlusMore(a: U64, b: U64, i: int)
    ensures Plus(a, b - a) == b && Plus(0, a + i) == Plus(a, i)
  {
  }

  lemma CodeConcat(m: Memory, a: U64, x: seq<Byte>, y: seq<Byte>)
    requires CodeAt(m, a, x + y)
    ensures CodeAt(m, a, x) && CodeAt(m, Plus(a, |x|), y)
  {
    forall i | 0 <= i < |x| ensures m(Plus(a, i)) == x[i] { assert (x + y)[i] == x[i]; }
    forall i | 0 <= i < |y| ensures m(Plus(Plus(a, |x|), i)) == y[i] {
      PlusPlus(a, |x|, i);
      assert (x + y)[|x| + i] == y[i];
    }
  }

  /** The 8 bytes at `a` do not meet the `n` bytes at `b`. */
  ghost predicate Apart(a: U64, b: U64, n: nat) {
    forall i :: 0 <= i < n ==> !Within8(Plus(b, i), a)
  }

  lemma StoreOutside(m: Memory, a: U64, v: U64, x: U64)
    requires !Within8(x, a)
    ensures Store64(m, a, v)(x) == m(x)
  {
  }

  lemma StoreInside(m: Memory, a: U64, v: U64, i: nat)
    requires i < 8
    ensures Store64(m, a, v)(Plus(a, i)) == ByteOf(v, i)
  {
    PlusPlus(a, i, -(a as int));
    assert Plus(Plus(a, i), -(a as int)) == i && Within8(Plus(a, i), a);
  }

  lemma StoreKeepsCode(m: Memory, a: U64, v: U64, at: U64, code: seq<Byte>)
    requires CodeAt(m, at, code) && Apart(a, at, |code|)
    ensures CodeAt(Store64(m, a, v), at, code)
  {
    forall i | 0 <= i < |code| ensures Store64(m, a, v)(Plus(at, i)) == code[i] { StoreOutside(m, a, v, Plus(at, i)); }
  }

  /** Loading is determined by the 8 bytes read. */
  lemma {:induction false} SameBytesSameTail(m: Memory, n: Memory, a: U64, i: nat)
    requires i <= 8 && forall j :: 0 <= j < 8 ==> m(Plus(a, j)) == n(Plus(a, j))
    ensures LoadTail(m, a, i) == LoadTail(n, a, i)
    decreases 8 - i
  {
    if i < 8 { SameBytesSameTail(m, n, a, i + 1); }
  }

  lemma StoreKeepsLoad(m: Memory, a: U64, v: U64, b: U64)
    requires Apart(a, b, 8)
    ensures Load64(Store64(m, a, v), b) == Load64(m, b)
  {
    forall j | 0 <= j < 8 ensures Store64(m, a, v)(Plus(b, j)) == m(Plus(b, j)) { StoreOutside(m, a, v, Plus(b, j)); }
    SameBytesSameTail(Store64(m, a, v), m, b, 0);
  }

  function Shr(v: U64, i: nat): U64 { if i == 0 then v else Shr(v / 256, i - 1) }

  lemma {:induction false} ShrStep(v: U64, i: nat)
    requires i < 8
    ensures Shr(v, i) == ByteOf(v, i) as int + 256 * Shr(v, i + 1) as int
  {
    if i > 0 { ShrStep(v / 256, i - 1); }
  }

  lemma ShrEnds(v: U64)
    ensures Shr(v, 8) == 0
  {
    var v1 := v / 256; var v2 := v1 / 256; var v3 := v2 / 256; var v4 := v3 / 256;
    var v5 := v4 / 256; var v6 := v5 / 256; var v7 := v6 / 256;
    assert Shr(v, 8) == Shr(v1, 7) == Shr(v2, 6) == Shr(v3, 5) == Shr(v4, 4);
    assert Shr(v4, 4) == Shr(v5, 3) == Shr(v6, 2) == Shr(v7, 1);
  }

  lemma {:induction false} LoadsTail(m: Memory, a: U64, v: U64, i: nat)
    requires i <= 8 && forall j :: 0 <= j < 8 ==> m(Plus(a, j)) == ByteOf(v, j)
    ensures LoadTail(m, a, i) == Shr(v, i)
    decreases 8 - i
  {
    if i == 8 {
      ShrEnds(v);
    } else {
      LoadsTail(m, a, v, i + 1);
      ShrStep(v, i);
    }
  }

  /** What was pushed is what is popped. */
  lemma LoadsBack(m: Memory, a: U64, v: U64)
    ensures Load64(Store64(m, a, v), a) == v
  {
    forall j | 0 <= j < 8 ensures Store64(m, a, v)(Plus(a, j)) == ByteOf(v, j) { StoreInside(m, a, v, j); }
    LoadsTail(Store64(m, a, v), a, v, 0);
  }

  // ---- Runs -------------------------------------------------------------

  lemma {:induction false} RunAdds(decode: Decoder, c: Cpu, m: nat, n: nat)
    requires Run(decode, c, m).Some?
    ensures Run(decode, c, m + n) == Run(decode, Run(decode, c, m).value, n)
    decreases m
  {
    if m > 0 { RunAdds(decode, Step(decode, c).value, m - 1, n); }
  }

  /** Straight-line execution of a listing. */
  function ExecLines(c: Cpu, lines: seq<Line>): Cpu
    decreases |lines|
  {
    if lines == [] then c
    else ExecLines(Exec(c, lines[0].insn, Plus(c.rip, |lines[0].bytes|)), lines[1..])
  }

  /** Control reaches each line of the listing in turn, and no line overwrites a later one. */
  ghost predicate Straight(c: Cpu, lines: seq<Line>)
    decreases |lines|
  {
    lines == [] ||
    var next := Plus(c.rip, |lines[0].bytes|);
    var d := Exec(c, lines[0].insn, next);
    CodeAt(c.mem, c.rip, lines[0].bytes) && d.rip == next && Straight(d, lines[1..])
  }

  lemma Begins(m: Memory, a: U64, code: seq<Byte>)
    requires CodeAt(m, a, code)
    ensures Starts(Fetch(m, a), code)
  {
  }

  lemma LineSteps(decode: Decoder, c: Cpu, line: Line)
    requires Sound(decode, line) && CodeAt(c.mem, c.rip, line.bytes)
    ensures Step(decode, c) == Some(Exec(c, line.insn, Plus(c.rip, |line.bytes|)))
  {
    Begins(c.mem, c.rip, line.bytes);
  }

  /** The machine executes a listing that lies in memory. */
  lemma {:induction false} ListingRuns(decode: Decoder, c: Cpu, lines: seq<Line>)
    requires forall l :: l in lines ==> Sound(decode, l)
    requires Straight(c, lines)
    ensures Run(decode, c, |lines|) == Some(ExecLines(c, lines))
    decreases |lines|
  {
    if lines != [] {
      LineSteps(decode, c, lines[0]);
      ListingRuns(decode, Exec(c, lines[0].insn, Plus(c.rip, |lines[0].bytes|)), lines[1..]);
    }
  }

  predicate Plain(insn: Insn) { insn.Op? || insn.Lea? || insn.Push? || insn.Pop? }

  /** `code` stays at `at` throughout the listing. */
  ghost predicate Spares(c: Cpu, lines: seq<Line>, at: U64, code: seq<Byte>)
    decreases |lines|
  {
    CodeAt(c.mem, at, code) &&
    (lines == [] || Spares(Exec(c, lines[0].insn, Plus(c.rip, |lines[0].bytes|)), lines[1..], at, code))
  }

  lemma {:induction false} SparedIsStraight(c: Cpu, lines: seq<Line>, at: U64, code: seq<Byte>, before: seq<Byte>)
    requires Spares(c, lines, at, code) && forall l :: l in lines ==> Plain(l.insn)
    requires code == before + Bytes(lines) && c.rip == Plus(at, |before|)
    ensures Straight(c, lines)
    decreases |lines|
  {
    if lines != [] {
      var line := lines[0];
      CodeConcat(c.mem, at, before, Bytes(lines));
      CodeConcat(c.mem, c.rip, line.bytes, Bytes(lines[1..]));
      PlusPlus(at, |before|, |line.bytes|);
      assert code == (before + line.bytes) + Bytes(lines[1..]);
      SparedIsStraight(Exec(c, line.insn, Plus(c.rip, |line.bytes|)), lines[1..], at, code, before + line.bytes);
    }
  }

  lemma {:induction false} NoStoreSpares(c: Cpu, lines: seq<Line>, at: U64, code: seq<Byte>)
    requires CodeAt(c.mem, at, code) && forall l :: l in lines ==> Plain(l.insn) && !l.insn.Push?
    ensures Spares(c, lines, at, code)
    decreases |lines|
  {
    if lines != [] {
      NoStoreSpares(Exec(c, lines[0].insn, Plus(c.rip, |lines[0].bytes|)), lines[1..], at, code);
    }
  }

  lemma {:induction false} ExecAppend(c: Cpu, x: seq<Line>, y: seq<Line>)
    ensures ExecLines(c, x + y) == ExecLines(ExecLines(c, x), y)
    decreases |x|
  {
    if x == [] {
      assert x + y == y;
    } else {
      ExecAppend(Exec(c, x[0].insn, Plus(c.rip, |x[0].bytes|)), x[1..], y);
      assert (x + y)[1..] == x[1..] + y;
    }
  }

  // ---- What each part of the thunk does ---------------------------------

  lemma ExecTwo(c: Cpu, x: Line, y: Line)
    ensures ExecLines(c, [x, y]) == var d := Exec(c, x.insn, Plus(c.rip, |x.bytes|));
            Exec(d, y.insn, Plus(d.rip, |y.bytes|))
  {
    var d := Exec(c, x.insn, Plus(c.rip, |x.bytes|));
    assert [x, y][1..] == [y] && [y][1..] == [];
    assert ExecLines(d, [y]) == ExecLines(Exec(d, y.insn, Plus(d.rip, |y.bytes|)), []);
  }

  /** The address of the thread's TEB slot. */
  function TebSlot(c: Cpu, teb: int): U64
    requires 0 <= teb < 0x1_0000_0000
  {
    Plus(c.gs, Signed32(teb))
  }

  lemma SlotLoad(c: Cpu, r: Reg, teb: int, next: U64)
    requires 0 <= teb < 0x1_0000_0000
    ensures Exec(c, Op(Mov, r, InMem(Gs, NoBase, Signed32(teb))), next)
            == c.(regs := c.regs[r := Load64(c.mem, TebSlot(c, teb))], rip := next)
  {
  }

  lemma FieldLoad(c: Cpu, r: Reg, offset: nat, next: U64)
    ensures Exec(c, Op(Mov, r, InMem(Flat, Base(r), offset)), next)
            == c.(regs := c.regs[r := Load64(c.mem, Plus(c.regs[r], offset))], rip := next)
  {
    PlusMore(c.regs[r], 0, offset);
  }

  /** Loading a TCB field through the TEB slot. */
  lemma LoadEffect(c: Cpu, x: Line, y: Line, r: Reg, offset: nat, teb: int)
    requires 0 <= teb < 0x1_0000_0000 && Load64(c.mem, TebSlot(c, teb)) == c.fs
    requires x.insn == Op(Mov, r, InMem(Gs, NoBase, Signed32(teb)))
             && y.insn == Op(Mov, r, InMem(Flat, Base(r), offset))
    ensures ExecLines(c, [x, y]) == c.(regs := c.regs[r := Load64(c.mem, Plus(c.fs, offset))],
                                       rip := Plus(c.rip, |x.bytes| + |y.bytes|))
  {
    ExecTwo(c, x, y);
    PlusPlus(c.rip, |x.bytes|, |y.bytes|);
    var n := Plus(c.rip, |x.bytes|);
    SlotLoad(c, r, teb, n);
    FieldLoad(c.(regs := c.regs[r := c.fs], rip := n), r, offset, Plus(n, |y.bytes|));
    var v := Load64(c.mem, Plus(c.fs, offset));
    assert c.regs[r := c.fs][r := v] == c.regs[r := v];
  }

  /** Where the scratch register is saved: the 8 bytes under the 128-byte red zone. */
  function Saved(c: Cpu): U64 { Plus(c.regs[RSP], -136) }

  lemma EnterEffect(c: Cpu, x: Line, y: Line, s: Reg)
    requires x.insn == Lea(RSP, Base(RSP), -128) && y.insn == Push(s) && s != RSP
    ensures ExecLines(c, [x, y]) == c.(regs := c.regs[RSP := Saved(c)], mem := Store64(c.mem, Saved(c), c.regs[s]),
                                       rip := Plus(c.rip, |x.bytes| + |y.bytes|))
  {
    ExecTwo(c, x, y);
    PlusPlus(c.rip, |x.bytes|, |y.bytes|);
    PlusPlus(c.regs[RSP], -128, -8);
    assert c.regs[RSP := Plus(c.regs[RSP], -128)][RSP := Saved(c)] == c.regs[RSP := Saved(c)];
  }

  lemma LeaveEffect(c: Cpu, x: Line, y: Line, s: Reg)
    requires x.insn == Pop(s) && y.insn == Lea(RSP, Base(RSP), 128) && s != RSP
    ensures ExecLines(c, [x, y]) == c.(regs := c.regs[RSP := Plus(c.regs[RSP], 136)][s := Load64(c.mem, c.regs[RSP])],
                                       rip := Plus(c.rip, |x.bytes| + |y.bytes|))
  {
    ExecTwo(c, x, y);
    PlusPlus(c.rip, |x.bytes|, |y.bytes|);
    PlusPlus(c.regs[RSP], 8, 128);
    var sp, v := c.regs[RSP], Load64(c.mem, c.regs[RSP]);
    assert c.regs[RSP := Plus(sp, 8)][s := v][RSP := Plus(sp, 136)] == c.regs[RSP := Plus(sp, 136)][s := v];
  }

  /** The instruction that the guest compiler emitted. */
  function Original(a: Access): Insn { Op(a.op, a.dst, InMem(Fs, NoBase, a.offset)) }

  lemma OriginalReads(c: Cpu, offset: nat, next: U64)
    ensures Read(c, InMem(Fs, NoBase, offset), next) == Load64(c.mem, Plus(c.fs, offset))
  {
  }

  lemma OpEffect(c: Cpu, d: Cpu, a: Access, s: Reg, n: U64, next: U64)
    requires a.op != Mov && d.regs[s] == Load64(c.mem, Plus(c.fs, a.offset)) && d.regs[a.dst] == c.regs[a.dst]
    ensures var e, o := Exec(d, Op(a.op, a.dst, InReg(s)), n), Exec(c, Original(a), next);
            e == d.(regs := d.regs[a.dst := o.regs[a.dst]], flags := o.flags, rip := n)
            && o == c.(regs := c.regs[a.dst := o.regs[a.dst]], flags := o.flags, rip := next)
  {
    OriginalReads(c, a.offset, next);
    assert a.op == Cmp ==> d.regs[a.dst := c.regs[a.dst]] == d.regs && c.regs[a.dst := c.regs[a.dst]] == c.regs;
  }

  lemma RestoresRegs(regs: Regs, s: Reg, dst: Reg, low: U64, v: U64, r: U64)
    requires dst != RSP && s != dst && s != RSP
    ensures regs[RSP := low][s := v][dst := r][RSP := regs[RSP]][s := regs[s]] == regs[dst := r]
  {
  }

  lemma ExecThree(c: Cpu, x: Line, y: Line, z: Line)
    ensures ExecLines(c, [x, y, z]) == ExecLines(Exec(c, x.insn, Plus(c.rip, |x.bytes|)), [y, z])
  {
    assert [x, y, z][1..] == [y, z];
  }

  lemma RestoreEffect(c: Cpu, e: Cpu, y: Line, z: Line, s: Reg, dst: Reg, v: U64, r: U64)
    requires dst != RSP && s != dst && s != RSP && y.insn == Pop(s) && z.insn == Lea(RSP, Base(RSP), 128)
    requires e.regs == c.regs[RSP := Saved(c)][s := v][dst := r] && Load64(e.mem, Saved(c)) == c.regs[s]
    ensures ExecLines(e, [y, z]) == e.(regs := c.regs[dst := r], rip := Plus(e.rip, |y.bytes| + |z.bytes|))
  {
    LeaveEffect(e, y, z, s);
    PlusPlus(c.regs[RSP], -136, 136);
    RestoresRegs(c.regs, s, dst, Saved(c), v, r);
  }

  /** With the field in a spare register, the operation and the clean-up leave what the original leaves. */
  lemma FinishEffect(c: Cpu, d: Cpu, a: Access, x: Line, y: Line, z: Line, s: Reg, v: U64, next: U64)
    requires a.op != Mov && a.dst != RSP && s != a.dst && s != RSP
    requires x.insn == Op(a.op, a.dst, InReg(s)) && y.insn == Pop(s) && z.insn == Lea(RSP, Base(RSP), 128)
    requires v == Load64(c.mem, Plus(c.fs, a.offset)) && Load64(d.mem, Saved(c)) == c.regs[s]
    requires d == c.(regs := c.regs[RSP := Saved(c)][s := v], mem := d.mem, rip := d.rip)
    requires next == Plus(d.rip, |x.bytes| + |y.bytes| + |z.bytes|)
    ensures ExecLines(d, [x, y, z]) == Exec(c, Original(a), next).(mem := d.mem)
  {
    ExecThree(d, x, y, z);
    var n := Plus(d.rip, |x.bytes|);
    OpEffect(c, d, a, s, n, next);
    RestoreEffect(c, Exec(d, x.insn, n), y, z, s, a.dst, v, Exec(c, Original(a), next).regs[a.dst]);
    PlusPlus(d.rip, |x.bytes|, |y.bytes| + |z.bytes|);
  }

  // ---- The theorem ------------------------------------------------------

  /** What running the thunk needs of memory: the TEB slot holds the TCB address and the scratch
      slot under the red zone meets neither the thunk, nor the TEB slot, nor the field. */
  ghost predicate Ready(c: Cpu, a: Access, teb: int, thunk: U64, size: nat)
    requires 0 <= teb < 0x1_0000_0000
  {
    && Load64(c.mem, TebSlot(c, teb)) == c.fs
    && (a.op != Mov ==> Apart(Saved(c), thunk, size) && Apart(Saved(c), TebSlot(c, teb), 8)
                        && Apart(Saved(c), Plus(c.fs, a.offset), 8))
  }

  /** Memory after the thunk: only CMP and XOR touch it, and only the saved slot. */
  function After(c: Cpu, a: Access): Memory {
    if a.op == Mov then c.mem else Store64(c.mem, Saved(c), c.regs[Scratch(a.dst)])
  }

  lemma MovBody(c: Cpu, a: Access, teb: int)
    requires 0 <= teb < 0x1_0000_0000 && 0 < a.offset < TCB_SIZE && a.op == Mov
             && Load64(c.mem, TebSlot(c, teb)) == c.fs
    ensures ExecLines(c, BodyLines(a, teb)) == Exec(c, Original(a), Plus(c.rip, |Bytes(BodyLines(a, teb))|))
  {
    var lines := BodyLines(a, teb);
    LoadEffect(c, lines[0], lines[1], a.dst, a.offset, teb);
    BytesOfTwo(lines[0], lines[1]);
    OriginalReads(c, a.offset, Plus(c.rip, |Bytes(lines)|));
    assert lines == [lines[0], lines[1]];
  }

  /** The state after saving the scratch register, and after loading the field into it. */
  function Entered(c: Cpu, s: Reg, n: nat): Cpu {
    c.(regs := c.regs[RSP := Saved(c)], mem := Store64(c.mem, Saved(c), c.regs[s]), rip := Plus(c.rip, n))
  }

  function Loaded(c: Cpu, s: Reg, v: U64, n: nat): Cpu {
    c.(regs := c.regs[s := v], rip := Plus(c.rip, n))
  }

  lemma EntryAndLoad(c: Cpu, l: seq<Line>, s: Reg, offset: nat, teb: int)
    requires 0 <= teb < 0x1_0000_0000 && s != RSP && Load64(c.mem, TebSlot(c, teb)) == c.fs
    requires Apart(Saved(c), TebSlot(c, teb), 8) && Apart(Saved(c), Plus(c.fs, offset), 8)
    requires |l| == 4 && l[0].insn == Lea(RSP, Base(RSP), -128) && l[1].insn == Push(s)
    requires l[2].insn == Op(Mov, s, InMem(Gs, NoBase, Signed32(teb)))
             && l[3].insn == Op(Mov, s, InMem(Flat, Base(s), offset))
    ensures ExecLines(c, l) == Loaded(Entered(c, s, |l[0].bytes| + |l[1].bytes|), s, Load64(c.mem, Plus(c.fs, offset)),
                                      |l[2].bytes| + |l[3].bytes|)
  {
    assert l == [l[0], l[1]] + [l[2], l[3]];
    ExecAppend(c, [l[0], l[1]], [l[2], l[3]]);
    EnterEffect(c, l[0], l[1], s);
    var d := Entered(c, s, |l[0].bytes| + |l[1].bytes|);
    StoreKeepsLoad(c.mem, Saved(c), c.regs[s], TebSlot(c, teb));
    StoreKeepsLoad(c.mem, Saved(c), c.regs[s], Plus(c.fs, offset));
    LoadEffect(d, l[2], l[3], s, offset, teb);
  }

  lemma LoadedIs(c: Cpu, s: Reg, v: U64, n: nat, m: nat)
    ensures var d := Loaded(Entered(c, s, n), s, v, m);
            d == c.(regs := c.regs[RSP := Saved(c)][s := v], mem := d.mem, rip := d.rip)
            && d.mem == Store64(c.mem, Saved(c), c.regs[s]) && Load64(d.mem, Saved(c)) == c.regs[s]
            && d.rip == Plus(c.rip, n + m)
  {
    LoadsBack(c.mem, Saved(c), c.regs[s]);
    PlusPlus(c.rip, n, m);
  }

  /** `d` is `c` with the field in the scratch register, whose old value is saved below the red zone. */
  ghost predicate Prepared(c: Cpu, d: Cpu, s: Reg, v: U64, n: nat) {
    && d == c.(regs := c.regs[RSP := Saved(c)][s := v], mem := Store64(c.mem, Saved(c), c.regs[s]),
               rip := Plus(c.rip, n))
    && Load64(d.mem, Saved(c)) == c.regs[s]
  }

  lemma Prepares(c: Cpu, l: seq<Line>, s: Reg, offset: nat, teb: int, n: nat)
    requires 0 <= teb < 0x1_0000_0000 && s != RSP && Load64(c.mem, TebSlot(c, teb)) == c.fs
    requires Apart(Saved(c), TebSlot(c, teb), 8) && Apart(Saved(c), Plus(c.fs, offset), 8)
    requires |l| == 4 && l[0].insn == Lea(RSP, Base(RSP), -128) && l[1].insn == Push(s)
    requires l[2].insn == Op(Mov, s, InMem(Gs, NoBase, Signed32(teb)))
             && l[3].insn == Op(Mov, s, InMem(Flat, Base(s), offset))
    requires n == |l[0].bytes| + |l[1].bytes| + (|l[2].bytes| + |l[3].bytes|)
    ensures Prepared(c, ExecLines(c, l), s, Load64(c.mem, Plus(c.fs, offset)), n)
  {
    EntryAndLoad(c, l, s, offset, teb);
    LoadedIs(c, s, Load64(c.mem, Plus(c.fs, offset)), |l[0].bytes| + |l[1].bytes|, |l[2].bytes| + |l[3].bytes|);
  }

  lemma AluLines(c: Cpu, l: seq<Line>, x: Line, y: Line, z: Line, a: Access, s: Reg, n: nat)
    requires a.op != Mov && a.dst != RSP && s != a.dst && s != RSP
    requires |l| == 4 && n == |l[0].bytes| + |l[1].bytes| + (|l[2].bytes| + |l[3].bytes|)
    requires Prepared(c, ExecLines(c, l), s, Load64(c.mem, Plus(c.fs, a.offset)), n)
    requires x.insn == Op(a.op, a.dst, InReg(s)) && y.insn == Pop(s) && z.insn == Lea(RSP, Base(RSP), 128)
    ensures ExecLines(c, l + [x, y, z])
            == Exec(c, Original(a), Plus(c.rip, |Bytes(l + [x, y, z])|)).(mem := Store64(c.mem, Saved(c), c.regs[s]))
  {
    ExecAppend(c, l, [x, y, z]);
    NextOfAll(c.rip, l, x, y, z, n);
    FinishEffect(c, ExecLines(c, l), a, x, y, z, s, Load64(c.mem, Plus(c.fs, a.offset)),
                 Plus(c.rip, |Bytes(l + [x, y, z])|));
  }

  lemma NextOfAll(at: U64, l: seq<Line>, x: Line, y: Line, z: Line, n: nat)
    requires |l| == 4 && n == |l[0].bytes| + |l[1].bytes| + (|l[2].bytes| + |l[3].bytes|)
    ensures Plus(at, |Bytes(l + [x, y, z])|) == Plus(Plus(at, n), |x.bytes| + |y.bytes| + |z.bytes|)
  {
    assert l == [l[0], l[1]] + [l[2], l[3]];
    BytesConcat(l, [x, y, z]);
    BytesConcat([l[0], l[1]], [l[2], l[3]]);
    BytesOfTwo(l[0], l[1]);
    BytesOfTwo(l[2], l[3]);
    BytesOfThree(x, y, z);
    PlusPlus(at, n, |x.bytes| + |y.bytes| + |z.bytes|);
  }

  /** Executing the body has the effect of the original, up to the next instruction and the saved slot. */
  lemma BodyEffect(c: Cpu, a: Access, teb: int, thunk: U64, size: nat)
    requires 0 <= teb < 0x1_0000_0000 && 0 < a.offset < TCB_SIZE && (a.op != Mov ==> a.dst != RSP)
    requires Ready(c, a, teb, thunk, size)
    ensures ExecLines(c, BodyLines(a, teb))
            == Exec(c, Original(a), Plus(c.rip, |Bytes(BodyLines(a, teb))|)).(mem := After(c, a))
  {
    if a.op == Mov {
      MovBody(c, a, teb);
    } else {
      var l := BodyLines(a, teb);
      assert l == l[..4] + [l[4], l[5], l[6]];
      var n := |l[0].bytes| + |l[1].bytes| + (|l[2].bytes| + |l[3].bytes|);
      Prepares(c, l[..4], Scratch(a.dst), a.offset, teb, n);
      AluLines(c, l[..4], l[4], l[5], l[6], a, Scratch(a.dst), n);
    }
  }

  lemma SparesTwo(c: Cpu, l: seq<Line>, s: Reg, at: U64, code: seq<Byte>)
    requires |l| >= 2 && l[0].insn == Lea(RSP, Base(RSP), -128) && l[1].insn == Push(s)
    requires CodeAt(c.mem, at, code) && Spares(ExecLines(c, [l[0], l[1]]), l[2..], at, code)
    ensures Spares(c, l, at, code)
  {
    ExecTwo(c, l[0], l[1]);
    assert l[1..][1..] == l[2..];
    var d := Exec(c, l[0].insn, Plus(c.rip, |l[0].bytes|));
    assert Spares(d, l[1..], at, code);
  }

  lemma BodySpares(c: Cpu, a: Access, teb: int, at: U64, code: seq<Byte>)
    requires 0 <= teb < 0x1_0000_0000 && 0 < a.offset < TCB_SIZE
    requires Ready(c, a, teb, at, |code|) && CodeAt(c.mem, at, code)
    ensures Spares(c, BodyLines(a, teb), at, code) && CodeAt(After(c, a), at, code)
  {
    var l := BodyLines(a, teb);
    if a.op == Mov {
      NoStoreSpares(c, l, at, code);
    } else {
      var s := Scratch(a.dst);
      EnterEffect(c, l[0], l[1], s);
      StoreKeepsCode(c.mem, Saved(c), c.regs[s], at, code);
      NoStoreSpares(ExecLines(c, [l[0], l[1]]), l[2..], at, code);
      SparesTwo(c, l, s, at, code);
    }
  }

  function JumpLine(at: U64, target: U64): Line
    requires NearJump(at, target).Some?
  {
    Line(NearJump(at, target).value, Jmp(target - Plus(at, 5)))
  }

  /** The decoder reads the body of the thunk, and every near jump, as they were meant. */
  ghost predicate Reads(decode: Decoder, a: Access, teb: int)
    requires 0 <= teb < 0x1_0000_0000 && 0 < a.offset < TCB_SIZE
  {
    && (forall l :: l in BodyLines(a, teb) ==> Sound(decode, l))
    && (forall at, target :: NearJump(at, target).Some? ==> Sound(decode, JumpLine(at, target)))
  }

  lemma DecoderReads(a: Access, teb: int)
    requires 0 <= teb < 0x1_0000_0000 && 0 < a.offset < TCB_SIZE
    ensures Reads(Decode, a, teb)
  {
    BodySound(a, teb);
    forall at, target | NearJump(at, target).Some? ensures Sound(Decode, JumpLine(at, target)) {
      JumpSound(at, target);
    }
  }

  lemma JumpRuns(decode: Decoder, c: Cpu, target: U64)
    requires NearJump(c.rip, target).Some? && CodeAt(c.mem, c.rip, NearJump(c.rip, target).value)
    requires Sound(decode, JumpLine(c.rip, target))
    ensures Run(decode, c, 1) == Some(c.(rip := target))
  {
    LineSteps(decode, c, JumpLine(c.rip, target));
    PlusMore(Plus(c.rip, 5), target, 0);
    assert Run(decode, c.(rip := target), 0) == Some(c.(rip := target));
  }

  lemma {:induction false} SparesPrefix(c: Cpu, lines: seq<Line>, at: U64, x: seq<Byte>, y: seq<Byte>)
    requires Spares(c, lines, at, x + y)
    ensures Spares(c, lines, at, x)
    decreases |lines|
  {
    CodeConcat(c.mem, at, x, y);
    if lines != [] {
      SparesPrefix(Exec(c, lines[0].insn, Plus(c.rip, |lines[0].bytes|)), lines[1..], at, x, y);
    }
  }

  /** The listing runs wherever its bytes lie, followed by anything. */
  lemma SparedRuns(decode: Decoder, c: Cpu, lines: seq<Line>, code: seq<Byte>, rest: seq<Byte>)
    requires code == Bytes(lines) + rest && Spares(c, lines, c.rip, code)
    requires forall l :: l in lines ==> Plain(l.insn) && Sound(decode, l)
    ensures Run(decode, c, |lines|) == Some(ExecLines(c, lines))
  {
    SparesPrefix(c, lines, c.rip, Bytes(lines), rest);
    SparedIsStraight(c, lines, c.rip, Bytes(lines), []);
    ListingRuns(decode, c, lines);
  }

  lemma BodyRuns(decode: Decoder, c: Cpu, a: Access, teb: int, rest: seq<Byte>)
    requires 0 <= teb < 0x1_0000_0000 && 0 < a.offset < TCB_SIZE && (a.op != Mov ==> a.dst != RSP)
    requires CodeAt(c.mem, c.rip, Body(a, teb) + rest) && Ready(c, a, teb, c.rip, |Body(a, teb) + rest|)
    requires Reads(decode, a, teb)
    ensures Run(decode, c, |BodyLines(a, teb)|)
            == Some(Exec(c, Original(a), Plus(c.rip, |Body(a, teb)|)).(mem := After(c, a)))
    ensures CodeAt(After(c, a), Plus(c.rip, |Body(a, teb)|), rest)
  {
    var lines, body := BodyLines(a, teb), Body(a, teb);
    ListingIsBody(a, teb);
    BodySpares(c, a, teb, c.rip, body + rest);
    SparedRuns(decode, c, lines, body + rest, rest);
    BodyEffect(c, a, teb, c.rip, |body + rest|);
    CodeConcat(After(c, a), c.rip, body, rest);
  }

  lemma OriginalNext(c: Cpu, a: Access, n: U64, next: U64)
    ensures Exec(c, Original(a), n).rip == n && Exec(c, Original(a), n).(rip := next) == Exec(c, Original(a), next)
  {
    OriginalReads(c, a.offset, n);
    OriginalReads(c, a.offset, next);
  }

  /** A run that arrives at a near jump goes on to its target. */
  lemma ThenJumps(decode: Decoder, c: Cpu, k: nat, mid: Cpu, target: U64)
    requires Run(decode, c, k) == Some(mid) && NearJump(mid.rip, target).Some?
    requires CodeAt(mid.mem, mid.rip, NearJump(mid.rip, target).value) && Sound(decode, JumpLine(mid.rip, target))
    ensures Run(decode, c, k + 1) == Some(mid.(rip := target))
  {
    JumpRuns(decode, mid, target);
    RunThen(decode, c, k, mid, 1);
  }

  lemma RunThen(decode: Decoder, c: Cpu, m: nat, mid: Cpu, n: nat)
    requires Run(decode, c, m) == Some(mid)
    ensures Run(decode, c, m + n) == Run(decode, mid, n)
  {
    RunAdds(decode, c, m, n);
  }

  /** Running a thunk from its first byte: the original's effect, then on to the return address. */
  lemma ThunkRuns(decode: Decoder, c: Cpu, a: Access, teb: int, back: U64)
    requires 0 <= teb < 0x1_0000_0000 && 0 < a.offset < TCB_SIZE && BuildThunk(a, teb, c.rip, back).Some?
    requires var code := BuildThunk(a, teb, c.rip, back).value;
             CodeAt(c.mem, c.rip, code) && Ready(c, a, teb, c.rip, |code|)
    requires Reads(decode, a, teb)
    ensures Run(decode, c, |BodyLines(a, teb)| + 1) == Some(Exec(c, Original(a), back).(mem := After(c, a)))
  {
    var n := Plus(c.rip, |Body(a, teb)|);
    BodyRuns(decode, c, a, teb, NearJump(n, back).value);
    OriginalNext(c, a, n, back);
    ThenJumps(decode, c, |BodyLines(a, teb)|, Exec(c, Original(a), n).(mem := After(c, a)), back);
  }

  /** The near jump at the site reaches the thunk, and the thunk reads and leaves the machine as it should. */
  ghost predicate Patched(c: Cpu, a: Access, teb: int, thunk: U64, back: U64)
    requires 0 <= teb < 0x1_0000_0000 && 0 < a.offset < TCB_SIZE
  {
    && BuildThunk(a, teb, thunk, back).Some? && NearJump(c.rip, thunk).Some?
    && CodeAt(c.mem, c.rip, NearJump(c.rip, thunk).value)
    && CodeAt(c.mem, thunk, BuildThunk(a, teb, thunk, back).value)
    && Ready(c, a, teb, thunk, |BuildThunk(a, teb, thunk, back).value|)
  }

  lemma PatchedRuns(decode: Decoder, c: Cpu, a: Access, teb: int, thunk: U64, back: U64)
    requires 0 <= teb < 0x1_0000_0000 && 0 < a.offset < TCB_SIZE && Patched(c, a, teb, thunk, back)
             && Reads(decode, a, teb)
    ensures Run(decode, c, |BodyLines(a, teb)| + 2) == Some(Exec(c, Original(a), back).(mem := After(c, a)))
  {
    var d := c.(rip := thunk);
    JumpRuns(decode, c, thunk);
    ThunkRuns(decode, d, a, teb, back);
    RunThen(decode, c, 1, d, |BodyLines(a, teb)| + 1);
    SameOriginal(c, d, a, back);
  }

  /** The patched site behaves as the instruction it replaced, for every destination register and
      nonzero field offset, up to the 8 bytes under the red zone that CMP and XOR use. */
  lemma PatchedSiteEquivalent(c: Cpu, a: Access, teb: int, thunk: U64, length: nat)
    requires 0 <= teb < 0x1_0000_0000 && 0 < a.offset < TCB_SIZE && Patched(c, a, teb, thunk, Plus(c.rip, length))
    ensures var steps := |BodyLines(a, teb)| + 2; var o := Exec(c, Original(a), Plus(c.rip, length));
            Run(Decode, c, steps).Some? && var d := Run(Decode, c, steps).value;
            d == o.(mem := d.mem)
            && (forall x: U64 :: !Within8(x, Saved(c)) || a.op == Mov ==> d.mem(x) == o.mem(x))
  {
    DecoderReads(a, teb);
    PatchedRuns(Decode, c, a, teb, thunk, Plus(c.rip, length));
    SameOriginal(c, c, a, Plus(c.rip, length));
  }

  lemma SameOriginal(c: Cpu, d: Cpu, a: Access, next: U64)
    requires d == c.(rip := d.rip)
    ensures Exec(c, Original(a), next) == Exec(d, Original(a), next) && Exec(c, Original(a), next).mem == c.mem
  {
    OriginalReads(c, a.offset, next);
    OriginalReads(d, a.offset, next);
  }

  // ---- Patches in place -------------------------------------------------

  function Opcode(op: Alu): Byte { match op case Mov => 0x8b case Cmp => 0x3b case Xor => 0x33 }

  /** The absolute form `op dst, gs:[disp]`. */
  function GsAbsolute(op: Alu, dst: Reg, disp: int): seq<Byte>
    requires 0 <= disp < 0x1_0000_0000
  {
    [0x65, Rex(dst >= 8, false), Opcode(op), 0x04 + 8 * (dst % 8), 0x25] + Le32(disp)
  }

  lemma DecodesAbsolute(b: nat -> Byte, op: Alu, dst: Reg, disp: int)
    requires 0 <= disp < 0x1_0000_0000 && Starts(b, GsAbsolute(op, dst, disp))
    ensures Decode(b) == Some(Decoded(Op(op, dst, InMem(Gs, NoBase, Signed32(disp))), 9))
  {
    var code := GsAbsolute(op, dst, disp);
    assert b(0) == code[0] && b(1) == code[1] && b(2) == code[2] && b(3) == code[3] && b(4) == code[4];
    ReadsLe32(b, 5,
              disp) by { forall i | 0 <= i < 4 ensures b(5 + i) == Le32(disp)[i] { assert b(5 + i) == code[5 + i]; } }
    RexBits(dst >= 8, false);
    assert DecodeModRm(b, 3, Gs, dst >= 8, false, false) == Some(ModRm(dst, InMem(Gs, NoBase, Signed32(disp)), 9));
  }

  lemma AbsoluteSteps(c: Cpu, op: Alu, dst: Reg, teb: int)
    requires 0 <= teb < 0x1_0000_0000 && CodeAt(c.mem, c.rip, GsAbsolute(op, dst, teb))
    ensures Step(Decode, c) == Some(Exec(c, Op(op, dst, InMem(Gs, NoBase, Signed32(teb))), Plus(c.rip, 9)))
  {
    Begins(c.mem, c.rip, GsAbsolute(op, dst, teb));
    DecodesAbsolute(Fetch(c.mem, c.rip), op, dst, teb);
  }

  lemma MovDiffers(c: Cpu, dst: Reg, x: U64, y: U64, next: U64)
    ensures c.(regs := c.regs[dst := x], rip := next) == c.(regs := c.regs[dst := y], rip := next) <==> x == y
  {
    assert c.regs[dst := x][dst] == x && c.regs[dst := y][dst] == y;
  }

  /** The inline patch of an access to field 0 reads the TEB slot instead of the TCB: exact for MOV, whatever
      the destination held, if and only if the slot holds what field 0 holds, its own address. */
  lemma InlinedMovExactly(c: Cpu, dst: Reg, teb: int)
    requires 0 <= teb < 0x1_0000_0000 && CodeAt(c.mem, c.rip, GsAbsolute(Mov, dst, teb))
    ensures Step(Decode, c) == Some(Exec(c, Original(Access(Mov, dst, 0)), Plus(c.rip, 9)))
            <==> Load64(c.mem, TebSlot(c, teb)) == Load64(c.mem, c.fs)
  {
    var next := Plus(c.rip, 9);
    AbsoluteSteps(c, Mov, dst, teb);
    SlotLoad(c, dst, teb, next);
    OriginalReads(c, 0, next);
    MovDiffers(c, dst, Load64(c.mem, TebSlot(c, teb)), Load64(c.mem, c.fs), next);
  }
}
