/** The two ways in which a refusal half-way leaves an access neither as it was nor patched. */
module TcbBroken {
  import opened Base
  import opened X86
  import opened TcbThunk
  import opened TcbInline
  import opened TcbScan

  /** mov rax, fs:[offset] */
  function LoadField(offset: Byte): seq<Byte> { [0x64, 0x48, 0x8b, 0x04, 0x25, offset, 0, 0, 0] }

  function LoadInsn(offset: Byte): Instruction {
    Instruction(9, Some(Mov), true, Some(RAX), Some(offset), [0x64], 5, 32)
  }

  lemma LoadThere(offset: Byte)
    ensures CodeAt(SiteMemory(LoadField(offset)), SITE, LoadField(offset))
  {
    var m, code := SiteMemory(LoadField(offset)), LoadField(offset);
    forall i | 0 <= i < |code| ensures m(Plus(SITE, i)) == code[i] { NoWrap(SITE, i); }
  }

  /** The encodings of the x86-64 patcher. */
  function Emits(teb: int): Emitter
    requires 0 <= teb < 0x1_0000_0000
  {
    Emitter((a: Access, at, back) => if a.offset < TCB_SIZE then BuildThunk(a, teb, at, back) else None,
            (at, target) => NearJump(at, target), Le32(teb))
  }

  lemma EmitsEncodes(teb: int)
    requires 0 <= teb < 0x1_0000_0000
    ensures Encodes(Emits(teb), teb)
  {
  }

  /** The host grants the first write and no other: the GS prefix stands before the old displacement. */
  method HalfInlinedHappens() returns (p: Patcher, ok: bool)
    ensures fresh(p) && !ok
    ensures CodeAt(p.mem, SITE, [0x65, 0x48, 0x8b, 0x04, 0x25, 0, 0, 0, 0])
  {
    LoadThere(0);
    p := new Patcher(SiteMemory(LoadField(0)), None, n => n == 0);
    ghost var fate;
    ghost var prefixes := LoadInsn(0).prefixes;
    assert OnlyFs(prefixes, 0);
    ok, fate := p.PatchInline(SITE, LoadInsn(0), Emits(TLS_SLOTS), LoadField(0));
    assert LoadField(0)[0 := 0x65] == [0x65, 0x48, 0x8b, 0x04, 0x25, 0, 0, 0, 0];
  }

  const ARENA: U64 := 0x4000

  lemma Reaches()
    ensures var plan := PlanThunk(Arena(ARENA, 0x100, 0), SITE, LoadInsn(8), Emits(TLS_SLOTS));
            plan.Some? && NearJump(SITE, ARENA).Some? && plan.value.bytes == SiteBytes(NearJump(SITE, ARENA).value, 9)
  {
    var a := AccessOf(LoadInsn(8));
    assert Plus(SITE, 9) == SITE + 9 && Plus(SITE, 5) == SITE + 5;
    var body := Body(a, TLS_SLOTS);
    assert |body| == 16;
    assert Plus(ARENA, 16) == ARENA + 16 && Plus(ARENA + 16, 5) == ARENA + 21;
  }

  /** A site with a plan for its thunk, and a host that refuses the third request. */
  method LosesFlush(p: Patcher, em: Emitter, insn: Instruction, was: seq<Byte>) returns (ok: bool)
    requires |em.teb| == 4 && IsAccess(insn) && insn.fsDisp.value != 0 && |was| == insn.length
    requires p.asked == 0 && p.host(0) && p.host(1) && !p.host(2) && CodeAt(p.mem, SITE, was)
    requires SITE + insn.length <= U64_MAX && ArenaApart(p.arena, SITE, SITE + insn.length)
    requires p.arena.Some? && PlanThunk(p.arena.value, SITE, insn, em).Some?
    modifies p
    ensures !ok && p.arena == old(p.arena)
    ensures CodeAt(p.mem, SITE, PlanThunk(old(p.arena).value, SITE, insn, em).value.bytes)
  {
    ghost var fate;
    var emitted;
    assert p.CutTrampoline(p.arena, SITE, insn, em, 0);
    ok, emitted, fate := p.PatchTrampoline(SITE, insn, em, was);
    assert fate.kind == Unflushed;
  }

  /** The host refuses the third request, the flush: the site jumps to a thunk that the arena does not own. */
  method UnflushedHappens() returns (p: Patcher, ok: bool)
    ensures fresh(p) && !ok && p.arena == Some(Arena(ARENA, 0x100, 0))
    ensures NearJump(SITE, ARENA).Some? && CodeAt(p.mem, SITE, SiteBytes(NearJump(SITE, ARENA).value, 9))
  {
    p := new Patcher(SiteMemory(LoadField(8)), Some(Arena(ARENA, 0x100, 0)), n => n != 2);
    LoadThere(8);
    Reaches();
    ok := LosesFlush(p, Emits(TLS_SLOTS), LoadInsn(8), LoadField(8));
  }
}
