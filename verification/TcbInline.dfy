/** When the inline patch of an access to field 0, which reads the TEB slot instead of the TCB, is exact. */
module TcbInline {
  import opened Base
  import opened X86
  import opened TcbThunk
  import opened TcbEquivalence

  // ---- XOR --------------------------------------------------------------

  function Pow2(n: nat): nat { if n == 0 then 1 else 2 * Pow2(n - 1) }

  lemma {:induction false} XorBound(a: nat, b: nat, n: nat)
    requires a < Pow2(n) && b < Pow2(n)
    ensures BitXor(a, b) < Pow2(n)
    decreases n
  {
    if n > 0 && a > 0 { XorBound(a / 2, b / 2, n - 1); }
  }

  lemma {:induction false} XorInjective(a: nat, x: nat, y: nat)
    requires BitXor(a, x) == BitXor(a, y)
    ensures x == y
    decreases a
  {
    if a > 0 { XorInjective(a / 2, x / 2, y / 2); }
  }

  lemma PowFour(n: nat)
    ensures Pow2(n + 4) == 16 * Pow2(n)
  {
    assert Pow2(n + 4) == 2 * Pow2(n + 3) && Pow2(n + 2) == 2 * Pow2(n + 1);
  }

  lemma PowSixteen(n: nat)
    ensures Pow2(n + 16) == 0x1_0000 * Pow2(n)
  {
    PowFour(n);
    PowFour(n + 4);
    PowFour(n + 8);
    PowFour(n + 12);
  }

  lemma Pow64()
    ensures Pow2(64) == 0x1_0000_0000_0000_0000
  {
    PowSixteen(0);
    PowSixteen(16);
    PowSixteen(32);
    PowSixteen(48);
  }

  lemma XorWordsDiffer(a: U64, x: U64, y: U64)
    ensures Wrap(BitXor(a, x)) == Wrap(BitXor(a, y)) <==> x == y
  {
    Pow64();
    XorBound(a, x, 64);
    XorBound(a, y, 64);
    if BitXor(a, x) == BitXor(a, y) { XorInjective(a, x, y); }
  }

  // ---- The exact conditions ---------------------------------------------

  /** The patched instruction at `rip` does what the original access to field 0 did. */
  ghost predicate Exact(c: Cpu, op: Alu, dst: Reg) {
    Step(Decode, c) == Some(Exec(c, Original(Access(op, dst, 0)), Plus(c.rip, 9)))
  }

  /** The slot that the patch reads holds what field 0 of the TCB holds. */
  ghost predicate Mirrors(c: Cpu, teb: int)
    requires 0 <= teb < 0x1_0000_0000
  {
    Load64(c.mem, TebSlot(c, teb)) == Load64(c.mem, c.fs)
  }

  lemma InlinedReads(c: Cpu, op: Alu, dst: Reg, teb: int)
    requires 0 <= teb < 0x1_0000_0000 && CodeAt(c.mem, c.rip, GsAbsolute(op, dst, teb))
    ensures var next := Plus(c.rip, 9);
            Step(Decode, c) == Some(Exec(c, Op(op, dst, InMem(Gs, NoBase, Signed32(teb))), next))
            && Read(c, InMem(Gs, NoBase, Signed32(teb)), next) == Load64(c.mem, TebSlot(c, teb))
            && Read(c, InMem(Fs, NoBase, 0), next) == Load64(c.mem, c.fs)
  {
    AbsoluteSteps(c, op, dst, teb);
    OriginalReads(c, 0, Plus(c.rip, 9));
  }

  /** XOR on field 0: exact if and only if the slot holds what field 0 holds. */
  lemma InlinedXorExactly(c: Cpu, dst: Reg, teb: int)
    requires 0 <= teb < 0x1_0000_0000 && CodeAt(c.mem, c.rip, GsAbsolute(Xor, dst, teb))
    ensures Exact(c, Xor, dst) <==> Mirrors(c, teb)
  {
    InlinedReads(c, Xor, dst, teb);
    var x, y := Load64(c.mem, TebSlot(c, teb)), Load64(c.mem, c.fs);
    XorWordsDiffer(c.regs[dst], x, y);
    var v, w := Wrap(BitXor(c.regs[dst], x)), Wrap(BitXor(c.regs[dst], y));
    assert c.regs[dst := v][dst] == v && c.regs[dst := w][dst] == w;
  }

  function With(c: Cpu, dst: Reg, v: U64): Cpu { c.(regs := c.regs[dst := v]) }

  lemma CmpZero(a: U64, b: U64)
    ensures CmpFlags(a, b).zf <==> a == b
  {
    WrapIsMod(a - b);
  }

  lemma CmpExact(c: Cpu, dst: Reg, teb: int)
    requires 0 <= teb < 0x1_0000_0000 && CodeAt(c.mem, c.rip, GsAbsolute(Cmp, dst, teb))
    ensures Exact(c, Cmp, dst)
            <==> CmpFlags(c.regs[dst], Load64(c.mem, TebSlot(c, teb))) == CmpFlags(c.regs[dst], Load64(c.mem, c.fs))
  {
    InlinedReads(c, Cmp, dst, teb);
  }

  /** CMP on field 0: exact whatever the destination holds, if and only if the slot holds what field 0 holds. */
  lemma InlinedCmpExactly(c: Cpu, dst: Reg, teb: int)
    requires 0 <= teb < 0x1_0000_0000 && CodeAt(c.mem, c.rip, GsAbsolute(Cmp, dst, teb))
    ensures (forall v: U64 :: Exact(With(c, dst, v), Cmp, dst)) <==> Mirrors(c, teb)
  {
    forall v: U64 ensures Mirrors(c, teb) ==> Exact(With(c, dst, v), Cmp, dst) { CmpExact(With(c, dst, v), dst, teb); }
    var x := Load64(c.mem, TebSlot(c, teb));
    if Exact(With(c, dst, x), Cmp, dst) {
      CmpExact(With(c, dst, x), dst, teb);
      CmpZero(x, x);
      CmpZero(x, Load64(c.mem, c.fs));
    }
  }

  // ---- What breaks the condition ----------------------------------------

  /** The machine as the runtime sets it up: the code patched, and the TEB slot holding the TCB address. */
  ghost predicate SetUp(c: Cpu, op: Alu, dst: Reg, teb: int)
    requires 0 <= teb < 0x1_0000_0000
  {
    && CodeAt(c.mem, c.rip, GsAbsolute(op, dst, teb)) && Load64(c.mem, TebSlot(c, teb)) == c.fs
    && Apart(c.fs, c.rip, 9) && Apart(c.fs, TebSlot(c, teb), 8)
  }

  /** The machine after the guest has stored `v` in field 0 of its TCB. */
  function Stored(c: Cpu, v: U64): Cpu { c.(mem := Store64(c.mem, c.fs, v)) }

  /** The guest alone decides: whatever it stores in field 0, the slot mirrors the field exactly if
      the field still holds its own address. */
  lemma GuestStoreDecides(c: Cpu, op: Alu, dst: Reg, teb: int, v: U64)
    requires 0 <= teb < 0x1_0000_0000 && SetUp(c, op, dst, teb)
    ensures SetUp(Stored(c, v), op, dst, teb) && (Mirrors(Stored(c, v), teb) <==> v == c.fs)
    ensures op != Cmp ==> (Exact(Stored(c, v), op, dst) <==> v == c.fs)
    ensures op == Cmp ==> ((forall w: U64 :: Exact(With(Stored(c, v), dst, w), op, dst)) <==> v == c.fs)
  {
    var d := Stored(c, v);
    StoreKeepsCode(c.mem, c.fs, v, c.rip, GsAbsolute(op, dst, teb));
    StoreKeepsLoad(c.mem, c.fs, v, TebSlot(c, teb));
    LoadsBack(c.mem, c.fs, v);
    match op
    case Mov => InlinedMovExactly(d, dst, teb);
    case Xor => InlinedXorExactly(d, dst, teb);
    case Cmp => InlinedCmpExactly(d, dst, teb);
  }

  const SITE: U64 := 0x1000
  const TCB: U64 := 0x2000
  const TEB: U64 := 0x3000
  const TLS_SLOTS := 0x1480

  function SiteMemory(code: seq<Byte>): Memory {
    (x: U64) => if SITE <= x < SITE + |code| then code[x - SITE] else 0
  }

  /** A thread whose TCB and TEB slot are set up, about to load field 0. */
  function Fresh(): Cpu {
    var code := GsAbsolute(Mov, RAX, TLS_SLOTS);
    var m := Store64(Store64(SiteMemory(code), TEB + TLS_SLOTS, TCB), TCB, TCB);
    Cpu(seq(16, _ => 0), Flags(false, false, false, false, false, false), SITE, TCB, TEB, m)
  }

  lemma FarApart(a: U64, b: U64, n: nat)
    requires a + 8 <= U64_MAX && b + n <= U64_MAX && (a + 8 <= b || b + n <= a)
    ensures Apart(a, b, n)
  {
    forall i | 0 <= i < n ensures !Within8(Plus(b, i), a) {
      assert Plus(b, i) == b + i;
      WrapIsMod(b + i - a);
    }
  }

  lemma FreshIsSetUp()
    ensures SetUp(Fresh(), Mov, RAX, TLS_SLOTS)
  {
    var code := GsAbsolute(Mov, RAX, TLS_SLOTS);
    var m0, slot := SiteMemory(code), TEB + TLS_SLOTS;
    var m1 := Store64(m0, slot, TCB);
    assert CodeAt(m0, SITE, code) by { forall i | 0 <= i < |code| ensures m0(Plus(SITE, i)) == code[i] { } }
    FarApart(slot, SITE, 9);
    FarApart(TCB, SITE, 9);
    FarApart(TCB, slot, 8);
    StoreKeepsCode(m0, slot, TCB, SITE, code);
    StoreKeepsCode(m1, TCB, TCB, SITE, code);
    LoadsBack(m0, slot, TCB);
    StoreKeepsLoad(m1, TCB, TCB, slot);
  }

  /** A state in which the patch is exact and one guest store after which it is not. */
  lemma GuestStoreBreaksInline()
    ensures SetUp(Fresh(), Mov, RAX, TLS_SLOTS) && Exact(Fresh(), Mov, RAX) && !Exact(Stored(Fresh(), 1), Mov, RAX)
  {
    var c := Fresh();
    FreshIsSetUp();
    var m := Store64(SiteMemory(GsAbsolute(Mov, RAX, TLS_SLOTS)), TEB + TLS_SLOTS, TCB);
    LoadsBack(m, TCB, TCB);
    InlinedMovExactly(c, RAX, TLS_SLOTS);
    GuestStoreDecides(c, Mov, RAX, TLS_SLOTS, 1);
  }
}
