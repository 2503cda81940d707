/** Why a mutex or condition call returns an error: every code has its reason in the state in which it is given. */
module SyncRefusals {
  import opened Base
  import opened Sync
  import opened SyncSteps
  import opened SyncProof
  import opened SyncTheorems
  import opened SyncRuns
  import opened SyncCalls
  import opened SyncCodes
  import opened SyncAlone

  // ---- What a slot lacks ------------------------------------------------

  /** The slot neither names a mutex nor can be given one. */
  predicate NoLockable(s: State, slot: U64) {
    SlotOf(s, slot).NoMutex? || (SlotOf(s, slot).Unmade? && slot !in s.wr)
  }

  /** The slot neither names a condition variable nor can be given one. */
  predicate NoCond(s: State, slot: U64) {
    || slot !in s.mem || s.mem[slot] == 1 || (s.mem[slot] == 0 && slot !in s.wr)
    || (s.mem[slot] > 1 && s.mem[slot] !in s.ctab)
  }

  lemma LookMutexMisses(s: State, slot: U64, create: bool)
    requires Tables(s)
    ensures var look := LookMutex(s, slot, create);
            look.Miss? ==> if create then look.code == EINVAL && NoLockable(s, slot)
                           else !SlotOf(s, slot).Made?
                                && look.code == if SlotOf(s, slot).Unmade? then EPERM else EINVAL
  {
  }

  lemma LookCondMisses(s: State, slot: U64)
    ensures LookCond(s, slot).Miss? ==> LookCond(s, slot).code == EINVAL && NoCond(s, slot)
  {
  }

  // ---- One refusal ------------------------------------------------------

  /** The thread already holds the mutex and its kind does not allow another lock. */
  predicate LockForbidden(m: MutexRec, t: Tid, code: int) {
    && m.owner == Some(t)
    && ((m.kind == Recursive && m.depth == U64_MAX && code == EAGAIN)
        || (m.kind != Recursive && m.kind != Normal && code == EDEADLK))
  }

  /** Where a call stands when it is refused, and why. */
  ghost predicate Refusal(s: State, t: Tid, call: Call, code: int) {
    && t in s.thr
    && var pc := s.thr[t];
       match call
       case CallLock(slot) =>
         if pc.MutexTable? then code == EINVAL && NoLockable(s, slot)
         else pc.MutexRecord? && pc.r in s.mrec && LockForbidden(s.mrec[pc.r], t, code)
       case CallUnlock(slot) =>
         if pc.MutexTable? then !SlotOf(s, slot).Made? && code == if SlotOf(s, slot).Unmade? then EPERM else EINVAL
         else pc.MutexRecord? && pc.r in s.mrec && s.mrec[pc.r].owner != Some(t) && code == EPERM
       case CallInit(slot, _) =>
         (code == EINVAL && (slot !in s.mem || slot !in s.wr)) || (code == EBUSY && slot in s.mem && s.mem[slot] > 2)
       case CallDestroy(slot) =>
         if pc.MutexTable? then code == EINVAL && SlotOf(s, slot).NoMutex?
         else && pc.MutexRecord? && pc.r in s.mrec
              && if s.mrec[pc.r].owner != None || s.mrec[pc.r].waiters > 0 then code == EBUSY
                 else code == EINVAL && slot !in s.wr
       case CallCondInit(slot) => code == EINVAL && slot !in s.wr
       case CallCondDestroy(slot) =>
         if pc.CondTable? then code == EINVAL && (slot !in s.mem || s.mem[slot] == 1 || s.mem[slot] !in s.ctab)
         else && pc.CondRecord? && pc.c in s.crec
              && if s.crec[pc.c].queue != [] then code == EBUSY else code == EINVAL && slot !in s.wr
       case CallSignal(slot) => code == EINVAL && NoCond(s, slot)
       case CallBroadcast(slot) => code == EINVAL && NoCond(s, slot)
       case CallWait(slot, mutexSlot, _) =>
         if pc.MutexTable? then code == EINVAL && NoLockable(s, mutexSlot)
         else if pc.CondTable? then code == EINVAL && NoCond(s, slot)
         else pc.WaitMutex? && pc.m in s.mrec && s.mrec[pc.m].owner != Some(t) && code == EPERM
  }

  lemma LookedMisses(s: State, t: Tid, slot: U64, req: MutexReq, look: Look, r: Rid, h: U64)
    requires t in Looked(s, t, slot, req, look, r, h).thr && Looked(s, t, slot, req, look, r, h).thr[t].Ret?
    ensures look.Miss? && Looked(s, t, slot, req, look, r, h).thr[t].res.code == look.code
  {
  }

  lemma TableRefuses(s: State, t: Tid, ch: Choice, s': State, call: Call)
    requires Inv(s) && Step(s, t, ch, s') && Within(call, s.thr[t]) && s.thr[t].MutexTable?
    requires call.CallLock? || call.CallUnlock? || call.CallWait?
    requires t in s'.thr && s'.thr[t].Ret? && s'.thr[t].res.Code? && s'.thr[t].res.code != 0
    ensures Refusal(s, t, call, s'.thr[t].res.code)
  {
    var pc := s.thr[t];
    var look := LookMutex(s, pc.slot, !pc.req.ReqUnlock?);
    LookedMisses(s, t, pc.slot, pc.req, look, ch.id, ch.h);
    LookMutexMisses(s, pc.slot, !pc.req.ReqUnlock?);
  }

  lemma InitRefuses(s: State, t: Tid, slot: U64, kind: Kind, r: Rid, h: U64)
    ensures var s' := MutexTableStep(s, t, slot, ReqInit(kind), r, h);
            t in s'.thr && (s'.thr[t].Ret? && s'.thr[t].res.code != 0 ==>
                              || (s'.thr[t].res.code == EINVAL && (slot !in s.mem || slot !in s.wr))
                              || (s'.thr[t].res.code == EBUSY && slot in s.mem && s.mem[slot] > 2))
  {
  }

  lemma DestroyMisses(s: State, t: Tid, slot: U64, r: Rid, h: U64)
    ensures var s' := MutexTableStep(s, t, slot, ReqDestroy, r, h);
            t in s'.thr && (s'.thr[t].Ret? && s'.thr[t].res.code != 0 ==>
                              s'.thr[t].res.code == EINVAL
                              && (slot !in s.mem || s.mem[slot] == 2 || (s.mem[slot] > 2 && s.mem[slot] !in s.mtab)))
  {
  }

  lemma MakersRefuse(s: State, t: Tid, ch: Choice, s': State, call: Call)
    requires Inv(s) && Step(s, t, ch, s') && Within(call, s.thr[t]) && s.thr[t].MutexTable?
    requires call.CallInit? || call.CallDestroy?
    requires t in s'.thr && s'.thr[t].Ret? && s'.thr[t].res.code != 0
    ensures Refusal(s, t, call, s'.thr[t].res.code)
  {
    if call.CallInit? { InitRefuses(s, t, call.slot, call.kind, ch.id, ch.h); }
    else { DestroyMisses(s, t, call.slot, ch.id, ch.h); }
  }

  lemma LockRefuses(s: State, t: Tid, ch: Choice, s': State, call: Call)
    requires Inv(s) && Step(s, t, ch, s') && Within(call, s.thr[t]) && call.CallLock?
    requires s.thr[t].MutexRecord? || s.thr[t].Asleep? || s.thr[t].Woken?
    requires t in s'.thr && s'.thr[t].Ret? && s'.thr[t].res.code != 0
    ensures Refusal(s, t, call, s'.thr[t].res.code)
  {
    StepNext(s, t, ch, s');
    if s.thr[t].MutexRecord? {
      var pc := s.thr[t];
      LocksRecord(s, t, ch, s', pc.slot, pc.h, pc.r, Plain);
      assert RecordOk(s, pc.r, s.mrec[pc.r]);
      RecordAnswers(s, t, pc.r);
    }
  }

  lemma UnlockRefuses(s: State, t: Tid, ch: Choice, s': State, call: Call)
    requires Inv(s) && Step(s, t, ch, s') && Within(call, s.thr[t]) && call.CallUnlock?
    requires s.thr[t].MutexRecord? || s.thr[t].UnlockNotify?
    requires t in s'.thr && s'.thr[t].Ret? && s'.thr[t].res.code != 0
    ensures Refusal(s, t, call, s'.thr[t].res.code)
  {
    StepNext(s, t, ch, s');
    if s.thr[t].MutexRecord? {
      assert RecordOk(s, s.thr[t].r, s.mrec[s.thr[t].r]);
      UnlockMoves(s, t, s.thr[t].r);
    }
  }

  lemma DestroyRefuses(s: State, t: Tid, ch: Choice, s': State, call: Call)
    requires Inv(s) && Step(s, t, ch, s') && Within(call, s.thr[t]) && call.CallDestroy? && s.thr[t].MutexRecord?
    requires t in s'.thr && s'.thr[t].Ret? && s'.thr[t].res.code != 0
    ensures Refusal(s, t, call, s'.thr[t].res.code)
  {
    assert RecordOk(s, s.thr[t].r, s.mrec[s.thr[t].r]);
  }

  /** A look-up under the condition table that ends the call. */
  lemma CondLookRefuses(s: State, t: Tid, slot: U64, creq: CondReq, c: Cid, h: U64)
    requires creq.ReqCondWait? || creq.ReqSignal? || creq.ReqBroadcast?
    ensures var s' := CondTableStep(s, t, slot, creq, c, h);
            t in s'.thr && (s'.thr[t].Ret? ==> s'.thr[t].res.code == EINVAL && NoCond(s, slot))
  {
    LookCondMisses(s, slot);
  }

  lemma CondInitRefuses(s: State, t: Tid, slot: U64, c: Cid, h: U64)
    ensures var s' := CondTableStep(s, t, slot, ReqCondInit, c, h);
            t in s'.thr && (s'.thr[t].Ret? && s'.thr[t].res.code != 0 ==> s'.thr[t].res.code == EINVAL && slot !in s.wr)
  {
  }

  lemma CondDestroyMisses(s: State, t: Tid, slot: U64, c: Cid, h: U64)
    ensures var s' := CondTableStep(s, t, slot, ReqCondDestroy, c, h);
            t in s'.thr && (s'.thr[t].Ret? && s'.thr[t].res.code != 0 ==>
                              s'.thr[t].res.code == EINVAL
                              && (slot !in s.mem || s.mem[slot] == 1 || s.mem[slot] !in s.ctab))
  {
    if slot in s.mem && s.mem[slot] > 1 && s.mem[slot] in s.ctab {
      assert CondTableStep(s, t, slot, ReqCondDestroy, c, h).thr[t].CondRecord?;
    }
  }

  lemma InCondTable(s: State, t: Tid, ch: Choice, s': State)
    requires Step(s, t, ch, s') && s.thr[t].CondTable?
    ensures s' == CondTableStep(s, t, s.thr[t].slot, s.thr[t].creq, ch.id, ch.h)
  {
  }

  /** Why a look-up under the condition table ends the call. */
  predicate CondMiss(s: State, slot: U64, creq: CondReq, code: int) {
    && code == EINVAL
    && if creq.ReqCondInit? then slot !in s.wr
       else if creq.ReqCondDestroy? then slot !in s.mem || s.mem[slot] == 1 || s.mem[slot] !in s.ctab
       else NoCond(s, slot)
  }

  lemma CondTableMisses(s: State, t: Tid, slot: U64, creq: CondReq, c: Cid, h: U64)
    requires !creq.ReqExpire?
    ensures var s' := CondTableStep(s, t, slot, creq, c, h);
            t in s'.thr && (s'.thr[t].Ret? && s'.thr[t].res.code != 0 ==> CondMiss(s, slot, creq, s'.thr[t].res.code))
  {
    if creq.ReqCondInit? { CondInitRefuses(s, t, slot, c, h); }
    else if creq.ReqCondDestroy? { CondDestroyMisses(s, t, slot, c, h); }
    else { CondLookRefuses(s, t, slot, creq, c, h); }
  }

  lemma CondMissRefuses(s: State, t: Tid, call: Call, code: int)
    requires t in s.thr && Within(call, s.thr[t]) && s.thr[t].CondTable? && !s.thr[t].creq.ReqExpire?
    requires CondMiss(s, s.thr[t].slot, s.thr[t].creq, code)
    ensures Refusal(s, t, call, code)
  {
  }

  lemma CondTableRefuses(s: State, t: Tid, ch: Choice, s': State, call: Call)
    requires Inv(s) && Step(s, t, ch, s') && Within(call, s.thr[t]) && s.thr[t].CondTable?
    requires t in s'.thr && s'.thr[t].Ret? && s'.thr[t].res.code != 0
    ensures Refusal(s, t, call, s'.thr[t].res.code)
  {
    StepNext(s, t, ch, s');
    InCondTable(s, t, ch, s');
    CondTableMisses(s, t, s.thr[t].slot, s.thr[t].creq, ch.id, ch.h);
    CondMissRefuses(s, t, call, s'.thr[t].res.code);
  }

  lemma CondRecordRefuses(s: State, t: Tid, ch: Choice, s': State, call: Call)
    requires Inv(s) && Step(s, t, ch, s') && Within(call, s.thr[t]) && s.thr[t].CondRecord?
    requires t in s'.thr && s'.thr[t].Ret? && s'.thr[t].res.code != 0
    ensures Refusal(s, t, call, s'.thr[t].res.code)
  {
    StepNext(s, t, ch, s');
  }

  lemma WaitRefuses(s: State, t: Tid, ch: Choice, s': State, call: Call)
    requires Inv(s) && Step(s, t, ch, s') && Within(call, s.thr[t]) && s.thr[t].WaitMutex?
    requires t in s'.thr && s'.thr[t].Ret? && s'.thr[t].res.code != 0
    ensures Refusal(s, t, call, s'.thr[t].res.code)
  {
    assert RecordOk(s, s.thr[t].m, s.mrec[s.thr[t].m]);
  }

  lemma StepRefuses(s: State, t: Tid, ch: Choice, s': State, call: Call)
    requires Inv(s) && Step(s, t, ch, s') && Within(call, s.thr[t]) && !s.thr[t].Ret?
    requires t in s'.thr && s'.thr[t].Ret? && s'.thr[t].res.Code? && s'.thr[t].res.code != 0
    ensures Refusal(s, t, call, s'.thr[t].res.code)
  {
    var pc := s.thr[t];
    if pc.MutexTable? {
      if call.CallInit? || call.CallDestroy? { MakersRefuse(s, t, ch, s', call); }
      else { TableRefuses(s, t, ch, s', call); }
    } else if pc.CondTable? { CondTableRefuses(s, t, ch, s', call); }
    else if pc.CondRecord? { CondRecordRefuses(s, t, ch, s', call); }
    else if pc.WaitMutex? { WaitRefuses(s, t, ch, s', call); }
    else if call.CallLock? { LockRefuses(s, t, ch, s', call); }
    else if call.CallUnlock? { UnlockRefuses(s, t, ch, s', call); }
    else if call.CallDestroy? { DestroyRefuses(s, t, ch, s', call); }
    else { StepNext(s, t, ch, s'); }
  }

  /** The call is refused before it looks anything up. */
  predicate BadCall(s: State, call: Call) {
    || call.slot == 0 || (call.CallWait? && call.mutexSlot == 0)
    || ((call.CallInit? || call.CallCondInit? || call.CallCondDestroy?) && call.slot !in s.wr)
  }

  lemma EntryRefuses(s: State, call: Call)
    ensures Entry(s, call).Ret? <==> BadCall(s, call)
    ensures Entry(s, call).Ret? ==> Entry(s, call) == Ret(Code(EINVAL))
  {
  }

  /** A thread that comes back does so by a step of its own. */
  lemma ReturnsItself(run: seq<State>, acts: seq<Action>, t: Tid, n: nat)
    requires IsRun(run, acts) && n + 1 < |run| && Busy(run, t, n) && t in run[n + 1].thr && run[n + 1].thr[t].Ret?
    ensures acts[n].Run? && acts[n].t == t && Inv(run[n]) && Step(run[n], t, acts[n].ch, run[n + 1])
  {
    assert StepAt(run, acts, n);
    RunsKeepInv(run, acts, n);
    if !(acts[n].Run? && acts[n].t == t) { OthersLeave(run[n], acts[n], run[n + 1], t); }
  }

  /** Over every run: a call that comes back with an error, other than a wait that had released its mutex, was refused
      in its last step, for the reason that its code stands for. */
  lemma RefusedFor(run: seq<State>, acts: seq<Action>, t: Tid, call: Call, i: nat, j: nat)
    requires IsRun(run, acts) && Calls(run, acts, t, call, i, j)
    requires run[j].thr[t].res.Code? && run[j].thr[t].res.code != 0
    ensures if j == i + 1 then BadCall(run[i], call) && run[j].thr[t].res.code == EINVAL
            else Refusal(run[j - 1], t, call, run[j].thr[t].res.code)
  {
    if j == i + 1 {
      assert StepAt(run, acts, i);
      EntryRefuses(run[i], call);
    } else {
      assert Busy(run, t, j - 1);
      StaysWithin(run, acts, t, call, i, j - 1);
      ReturnsItself(run, acts, t, j - 1);
      StepRefuses(run[j - 1], t, acts[j - 1].ch, run[j], call);
    }
  }
}
