/** Whole guest calls, from the call to the result it returns, followed through a run. */
module SyncCalls {
  import opened Base
  import opened Sync
  import opened SyncSteps
  import opened SyncProof
  import opened SyncTheorems
  import opened SyncRuns

  // ---- Where a step can lead --------------------------------------------

  predicate Coded(pc: Pc) { pc.Ret? && pc.res.Code? && pc.res.code != ETIMEDOUT }

  /** `mutex_lock` ends without the mutex. */
  predicate LockEnds(k: Cont, pc: Pc) {
    && pc.Ret? && pc.res.code != 0 && pc.res.code != ETIMEDOUT
    && if k.Plain? then pc.res.Code? else pc.res.WaitFailed? && pc.res.w == k.w
  }

  /** `mutex_lock` has taken `r`. */
  predicate LockTook(r: Rid, k: Cont, pc: Pc) {
    if k.Plain? then pc == Ret(Code(0))
    else if k.w.d > 1 then pc == Restore(k.w, r)
    else pc == Ret(WaitDone(k.w, r, if k.w.timedOut then ETIMEDOUT else 0))
  }

  predicate FromTable(slot: U64, req: MutexReq, pc: Pc) {
    if req.ReqLock? then LockEnds(req.k, pc) || (pc.MutexRecord? && pc.slot == slot && pc.req == req)
    else if req.ReqWait? then
      Coded(pc) || (pc.CondTable? && pc.slot == req.condSlot && pc.creq.ReqCondWait? && pc.creq.slot == slot
                    && pc.creq.timed == req.timed)
    else Coded(pc) || (!req.ReqInit? && pc.MutexRecord? && pc.slot == slot && pc.req == req)
  }

  predicate FromRecord(r: Rid, req: MutexReq, pc: Pc) {
    if req.ReqLock? then LockEnds(req.k, pc) || LockTook(r, req.k, pc) || pc == Asleep(r, req.k)
    else Coded(pc) || (req.ReqUnlock? && pc == UnlockNotify(r))
  }

  predicate NextMutex(pc: Pc, pc': Pc) {
    match pc
    case MutexTable(slot, req) => FromTable(slot, req, pc')
    case MutexRecord(_, _, r, req) => FromRecord(r, req, pc')
    case Asleep(r, k) => pc' == Woken(r, k)
    case Woken(r, k) => pc' == Asleep(r, k) || LockTook(r, k, pc')
    case UnlockNotify(_) => pc' == Ret(Code(0))
    case _ => true
  }

  predicate FromCondTable(slot: U64, creq: CondReq, pc: Pc) {
    || (Coded(pc) && !creq.ReqExpire?)
    || (pc.CondRecord? && pc.slot == slot && pc.creq == creq && !creq.ReqCondInit?)
  }

  predicate FromCondRecord(c: Cid, creq: CondReq, pc: Pc) {
    match creq
    case ReqCondWait(m, slot, timed) => pc == WaitMutex(c, m, slot, timed)
    case ReqSignal => pc == Ret(Code(0)) || (pc.SignalToken? && pc.c == c)
    case ReqBroadcast => pc == Ret(Code(0)) || (pc.BroadcastToken? && pc.c == c)
    case ReqExpire(w) => pc == ExpireToken(w)
    case _ => Coded(pc)
  }

  predicate NextCond(pc: Pc, pc': Pc) {
    match pc
    case CondTable(slot, creq) => FromCondTable(slot, creq, pc')
    case CondRecord(_, _, c, creq) => FromCondRecord(c, creq, pc')
    case SignalToken(_, k) => pc' == NotifyTokens([k])
    case BroadcastToken(_, _, _, _) => pc'.NotifyTokens? || pc'.BroadcastToken?
    case NotifyTokens(pending) => if |pending| == 1 then pc' == Ret(Code(0)) else pc'.NotifyTokens?
    case _ => true
  }

  predicate NextWait(pc: Pc, pc': Pc) {
    match pc
    case WaitMutex(_, _, slot, timed) =>
      Coded(pc') || (pc'.WaitNotify? && pc'.w.slot == slot && !pc'.w.timedOut && pc'.timed == timed)
    case WaitNotify(w, timed) => pc' == TokenCheck(w, timed)
    case TokenCheck(w, timed) => pc' == Rejoin(w, false) || pc' == TokenAsleep(w, timed)
    case TokenAsleep(w, timed) =>
      pc' == TokenWoken(w, timed, false) || (timed && pc' == TokenWoken(w, timed, true))
    case TokenWoken(w, timed, expired) =>
      || pc' == Rejoin(w, false) || pc' == TokenAsleep(w, timed) || (expired && pc' == CondTable(0, ReqExpire(w)))
    case ExpireToken(w) => pc' == Rejoin(w, false) || pc' == Rejoin(w, true)
    case Restore(w, got) => pc' == Ret(WaitDone(w, got, if w.timedOut then ETIMEDOUT else 0))
    case _ => true
  }

  predicate Next(pc: Pc, pc': Pc) { NextMutex(pc, pc') && NextCond(pc, pc') && NextWait(pc, pc') }

  lemma LookedNext(s: State, t: Tid, slot: U64, req: MutexReq, look: Look, r: Rid, h: U64)
    requires !req.ReqInit? && !req.ReqDestroy? && (look.Miss? ==> look.code != 0 && look.code != ETIMEDOUT)
    ensures var s' := Looked(s, t, slot, req, look, r, h); t in s'.thr && FromTable(slot, req, s'.thr[t])
  {
  }

  lemma TableNext(s: State, t: Tid, slot: U64, req: MutexReq, r: Rid, h: U64)
    ensures var s' := MutexTableStep(s, t, slot, req, r, h); t in s'.thr && FromTable(slot, req, s'.thr[t])
  {
    if !req.ReqInit? && !req.ReqDestroy? { LookedNext(s, t, slot, req, LookMutex(s, slot, !req.ReqUnlock?), r, h); }
    else if req.ReqInit? { InitNext(s, t, slot, req, r, h); }
    else { DestroyLooks(s, t, slot, r, h); }
  }

  lemma InitNext(s: State, t: Tid, slot: U64, req: MutexReq, r: Rid, h: U64)
    requires req.ReqInit?
    ensures var s' := MutexTableStep(s, t, slot, req, r, h); t in s'.thr && Coded(s'.thr[t])
  {
  }

  lemma DestroyLooks(s: State, t: Tid, slot: U64, r: Rid, h: U64)
    ensures var s' := MutexTableStep(s, t, slot, ReqDestroy, r, h);
            t in s'.thr && FromTable(slot, ReqDestroy, s'.thr[t])
  {
  }

  lemma LockNext(s: State, t: Tid, r: Rid, k: Cont)
    requires r in s.mrec
    ensures var s' := LockStep(s, t, r, k); t in s'.thr && FromRecord(r, ReqLock(k), s'.thr[t])
  {
    LockMoves(s, t, r, k);
  }

  lemma WokenNext(s: State, t: Tid, r: Rid, k: Cont)
    requires r in s.mrec && s.mrec[r].waiters > 0
    ensures var s' := WokenStep(s, t, r, k); t in s'.thr && NextMutex(Woken(r, k), s'.thr[t])
  {
  }

  lemma UnlockNext(s: State, t: Tid, r: Rid)
    requires r in s.mrec
    ensures var s' := UnlockStep(s, t, r); t in s'.thr && FromRecord(r, ReqUnlock, s'.thr[t])
  {
    var m := s.mrec[r];
    if !m.locked || m.owner != Some(t) {
      assert UnlockStep(s, t, r).thr[t] == Ret(Code(EPERM));
    } else if m.kind == Recursive && m.depth > 1 {
      assert UnlockStep(s, t, r).thr[t] == Ret(Code(0));
    } else {
      assert UnlockStep(s, t, r).thr[t] == UnlockNotify(r);
    }
  }

  lemma DestroyNext(s: State, t: Tid, slot: U64, h: U64, r: Rid)
    requires r in s.mrec
    ensures var s' := DestroyStep(s, t, slot, h, r); t in s'.thr && FromRecord(r, ReqDestroy, s'.thr[t])
  {
    if s.mrec[r].locked || s.mrec[r].waiters != 0 {
      assert DestroyStep(s, t, slot, h, r).thr[t] == Ret(Code(EBUSY));
    } else {
      assert Coded(DestroyStep(s, t, slot, h, r).thr[t]);
    }
  }

  lemma CondTableNext(s: State, t: Tid, slot: U64, creq: CondReq, c: Cid, h: U64)
    ensures var s' := CondTableStep(s, t, slot, creq, c, h); t in s'.thr && FromCondTable(slot, creq, s'.thr[t])
  {
    match creq
    case ReqCondInit => assert Coded(CondTableStep(s, t, slot, creq, c, h).thr[t]);
    case ReqCondDestroy =>
    case ReqExpire(_) =>
    case _ => CondLookNext(s, t, slot, creq, c, h);
  }

  lemma CondLookNext(s: State, t: Tid, slot: U64, creq: CondReq, c: Cid, h: U64)
    requires !creq.ReqCondInit? && !creq.ReqCondDestroy? && !creq.ReqExpire?
    ensures var s' := CondTableStep(s, t, slot, creq, c, h); t in s'.thr && FromCondTable(slot, creq, s'.thr[t])
  {
    match LookCond(s, slot)
    case Miss(_) =>
    case Hit(_) =>
    case Make(_) =>
  }

  lemma CondRecordNext(s: State, t: Tid, slot: U64, h: U64, c: Cid, creq: CondReq)
    requires c in s.crec && !creq.ReqCondInit?
    ensures var s' := CondRecordStep(s, t, slot, h, c, creq); t in s'.thr && FromCondRecord(c, creq, s'.thr[t])
  {
  }

  lemma WaitMutexNext(s: State, t: Tid, c: Cid, m: Rid, slot: U64, timed: bool, k: Kid)
    requires c in s.crec && m in s.mrec
    ensures var s' := WaitMutexStep(s, t, c, m, slot, timed, k);
            t in s'.thr && NextWait(WaitMutex(c, m, slot, timed), s'.thr[t])
  {
  }

  lemma TokenNext(s: State, t: Tid, w: Wait, timed: bool, expired: bool)
    requires w.k in s.tok
    ensures var s' := TokenStep(s, t, w, timed, expired);
            t in s'.thr && NextWait(TokenWoken(w, timed, expired), s'.thr[t])
            && (!expired ==> NextWait(TokenCheck(w, timed), s'.thr[t]))
  {
  }

  lemma ExpireNext(s: State, t: Tid, w: Wait)
    requires w.k in s.tok && w.c in s.crec
    ensures var s' := ExpireStep(s, t, w); t in s'.thr && NextWait(ExpireToken(w), s'.thr[t])
  {
  }

  lemma RestoreNext(s: State, t: Tid, w: Wait, got: Rid)
    requires w.m in s.mrec
    ensures var s' := RestoreStep(s, t, w, got); t in s'.thr && NextWait(Restore(w, got), s'.thr[t])
  {
  }

  lemma MarkNext(s: State, t: Tid, c: Cid, k: Kid, marked: seq<Kid>, all: seq<Kid>)
    requires c in s.crec && s.crec[c].queue != [] && k in s.tok
    ensures var s' := SignalStep(s, t, c, k); t in s'.thr && s'.thr[t] == NotifyTokens([k])
    ensures var s' := BroadcastStep(s, t, c, k, marked, all);
            t in s'.thr && NextCond(BroadcastToken(c, k, marked, all), s'.thr[t])
  {
  }

  lemma NotifyNext(s: State, t: Tid, pending: seq<Kid>)
    requires pending != []
    ensures var s' := NotifyTokensStep(s, t, pending); t in s'.thr && NextCond(NotifyTokens(pending), s'.thr[t])
  {
  }

  lemma MutexSideNext(s: State, t: Tid, ch: Choice, s': State)
    requires Step(s, t, ch, s') && ThreadOk(s, t, s.thr[t])
    requires s.thr[t].MutexTable? || s.thr[t].MutexRecord? || s.thr[t].Asleep? || s.thr[t].Woken?
             || s.thr[t].UnlockNotify?
    ensures t in s'.thr && Next(s.thr[t], s'.thr[t])
  {
    match s.thr[t]
    case MutexTable(slot, req) => TableNext(s, t, slot, req, ch.id, ch.h);
    case MutexRecord(slot, h, r, req) =>
      if req.ReqLock? { LockNext(s, t, r, req.k); }
      else if req.ReqUnlock? { UnlockNext(s, t, r); }
      else { DestroyNext(s, t, slot, h, r); }
    case Asleep(r, k) =>
    case Woken(r, k) => WokenNext(s, t, r, k);
    case UnlockNotify(r) =>
  }

  lemma CondSideNext(s: State, t: Tid, ch: Choice, s': State)
    requires Step(s, t, ch, s') && ThreadOk(s, t, s.thr[t])
    requires s.thr[t].CondTable? || s.thr[t].CondRecord? || s.thr[t].SignalToken? || s.thr[t].BroadcastToken?
             || s.thr[t].NotifyTokens?
    ensures t in s'.thr && Next(s.thr[t], s'.thr[t])
  {
    match s.thr[t]
    case CondTable(slot, creq) => CondTableNext(s, t, slot, creq, ch.id, ch.h);
    case CondRecord(slot, h, c, creq) => CondRecordNext(s, t, slot, h, c, creq);
    case SignalToken(c, k) => MarkNext(s, t, c, k, [], []);
    case BroadcastToken(c, k, marked, all) => MarkNext(s, t, c, k, marked, all);
    case NotifyTokens(pending) => NotifyNext(s, t, pending);
  }

  lemma WaitSideNext(s: State, t: Tid, ch: Choice, s': State)
    requires Step(s, t, ch, s')
    requires s.thr[t].WaitMutex? || s.thr[t].WaitNotify? || s.thr[t].TokenCheck? || s.thr[t].TokenAsleep?
             || s.thr[t].TokenWoken? || s.thr[t].ExpireToken? || s.thr[t].Restore?
    ensures t in s'.thr && Next(s.thr[t], s'.thr[t])
  {
    match s.thr[t]
    case WaitMutex(c, m, slot, timed) => WaitMutexNext(s, t, c, m, slot, timed, ch.k);
    case WaitNotify(w, timed) =>
    case TokenCheck(w, timed) => TokenNext(s, t, w, timed, false);
    case TokenAsleep(w, timed) =>
    case TokenWoken(w, timed, expired) => TokenNext(s, t, w, timed, expired);
    case ExpireToken(w) => ExpireNext(s, t, w);
    case Restore(w, got) => RestoreNext(s, t, w, got);
  }

  lemma StepNext(s: State, t: Tid, ch: Choice, s': State)
    requires Inv(s) && Step(s, t, ch, s') && !s.thr[t].Ret?
    ensures t in s'.thr && Next(s.thr[t], s'.thr[t])
  {
    var pc := s.thr[t];
    assert ThreadOk(s, t, pc);
    if pc.MutexTable? || pc.MutexRecord? || pc.Asleep? || pc.Woken? || pc.UnlockNotify? {
      MutexSideNext(s, t, ch, s');
    } else if pc.CondTable? || pc.CondRecord? || pc.SignalToken? || pc.BroadcastToken? || pc.NotifyTokens? {
      CondSideNext(s, t, ch, s');
    } else {
      WaitSideNext(s, t, ch, s');
    }
  }

  // ---- Where a call can be ----------------------------------------------

  /** An untimed wait neither expires nor ends as timed out. */
  predicate Patient(pc: Pc) {
    && !(pc.TokenWoken? && pc.expired) && !(pc.CondTable? && pc.creq.ReqExpire?)
    && !(pc.CondRecord? && pc.creq.ReqExpire?) && !pc.ExpireToken?
    && (WaitOf(pc).Some? ==> !WaitOf(pc).value.timedOut) && (pc.Ret? ==> pc.res.code != ETIMEDOUT)
  }

  predicate WithinWait(slot: U64, mutexSlot: U64, timed: bool, pc: Pc) {
    && (!timed ==> Patient(pc))
    && match pc
       case MutexTable(x, ReqWait(y, z)) => x == mutexSlot && y == slot && z == timed
       case CondTable(x, ReqCondWait(_, y, z)) => x == slot && y == mutexSlot && z == timed
       case CondRecord(x, _, _, ReqCondWait(_, y, z)) => x == slot && y == mutexSlot && z == timed
       case WaitMutex(_, _, x, z) => x == mutexSlot && z == timed
       case WaitNotify(w, z) => w.slot == mutexSlot && z == timed
       case TokenCheck(w, z) => w.slot == mutexSlot && z == timed
       case TokenAsleep(w, z) => w.slot == mutexSlot && z == timed
       case TokenWoken(w, z, _) => w.slot == mutexSlot && z == timed
       case _ => pc.Ret? || (WaitOf(pc).Some? && WaitOf(pc).value.slot == mutexSlot)
  }

  /** Where a thread can be while it is in `call`. */
  predicate Within(call: Call, pc: Pc) {
    match call
    case CallLock(slot) =>
      || (pc.MutexTable? && pc.slot == slot && pc.req == ReqLock(Plain))
      || (pc.MutexRecord? && pc.slot == slot && pc.req == ReqLock(Plain))
      || (pc.Asleep? && pc.k.Plain?) || (pc.Woken? && pc.k.Plain?) || Coded(pc)
    case CallUnlock(slot) =>
      || (pc.MutexTable? && pc.slot == slot && pc.req == ReqUnlock)
      || (pc.MutexRecord? && pc.slot == slot && pc.req == ReqUnlock)
      || pc.UnlockNotify? || Coded(pc)
    case CallInit(slot, kind) =>
      (pc.MutexTable? && pc.slot == slot && pc.req == ReqInit(kind)) || Coded(pc)
    case CallDestroy(slot) =>
      || (pc.MutexTable? && pc.slot == slot && pc.req == ReqDestroy)
      || (pc.MutexRecord? && pc.slot == slot && pc.req == ReqDestroy) || Coded(pc)
    case CallCondInit(slot) =>
      (pc.CondTable? && pc.slot == slot && pc.creq == ReqCondInit) || Coded(pc)
    case CallCondDestroy(slot) =>
      || (pc.CondTable? && pc.slot == slot && pc.creq == ReqCondDestroy)
      || (pc.CondRecord? && pc.slot == slot && pc.creq == ReqCondDestroy) || Coded(pc)
    case CallSignal(slot) =>
      || (pc.CondTable? && pc.slot == slot && pc.creq == ReqSignal)
      || (pc.CondRecord? && pc.slot == slot && pc.creq == ReqSignal)
      || pc.SignalToken? || (pc.NotifyTokens? && |pc.pending| == 1) || Coded(pc)
    case CallBroadcast(slot) =>
      || (pc.CondTable? && pc.slot == slot && pc.creq == ReqBroadcast)
      || (pc.CondRecord? && pc.slot == slot && pc.creq == ReqBroadcast)
      || pc.BroadcastToken? || pc.NotifyTokens? || Coded(pc)
    case CallWait(slot, mutexSlot, timed) => WithinWait(slot, mutexSlot, timed, pc)
  }

  lemma EntryWithin(s: State, call: Call)
    ensures Within(call, Entry(s, call))
  {
  }

  lemma OthersWithin(call: Call, pc: Pc, pc': Pc)
    requires Within(call, pc) && LeftAlone(pc, pc')
    ensures Within(call, pc')
  {
  }

  lemma NextWithin(call: Call, pc: Pc, pc': Pc)
    requires Within(call, pc) && Next(pc, pc') && !pc.Ret?
    ensures Within(call, pc')
  {
    match call
    case CallWait(_, _, _) => NextInWait(call, pc, pc');
    case _ =>
  }

  lemma NextInWait(call: Call, pc: Pc, pc': Pc)
    requires Within(call, pc) && Next(pc, pc') && !pc.Ret? && call.CallWait?
    ensures Within(call, pc')
  {
  }

  // ---- Calls in a run ---------------------------------------------------

  /** Thread `t` makes `call` at `i` and is next seen back at `j`. */
  ghost predicate Calls(run: seq<State>, acts: seq<Action>, t: Tid, call: Call, i: nat, j: nat) {
    && i < j < |run| && |run| == |acts| + 1 && t in run[i].thr && run[i].thr[t].Ret? && CallsAt(acts, t, call, i)
    && t in run[j].thr && run[j].thr[t].Ret?
    && forall n {:trigger Busy(run, t, n)} :: i < n < j ==> Busy(run, t, n)
  }

  ghost predicate CallsAt(acts: seq<Action>, t: Tid, call: Call, i: nat) {
    i < |acts| && acts[i].Run? && acts[i].t == t && acts[i].ch.call == call
  }

  /** The thread is in the middle of a call. */
  ghost predicate Busy(run: seq<State>, t: Tid, n: int) { 0 <= n < |run| && t in run[n].thr && !run[n].thr[t].Ret? }

  /** While the thread is in the call, it is at one of the call's places. */
  lemma {:induction false} StaysWithin(run: seq<State>, acts: seq<Action>, t: Tid, call: Call, i: nat, n: nat)
    requires IsRun(run, acts) && i < n < |run| && t in run[i].thr && run[i].thr[t].Ret? && CallsAt(acts, t, call, i)
    requires forall m {:trigger Busy(run, t, m)} :: i < m < n ==> Busy(run, t, m)
    ensures t in run[n].thr && Within(call, run[n].thr[t])
    decreases n
  {
    assert StepAt(run, acts, n - 1);
    if n == i + 1 {
      EntryWithin(run[i], call);
    } else {
      StaysWithin(run, acts, t, call, i, n - 1);
      assert Busy(run, t, n - 1);
      RunsKeepInv(run, acts, n - 1);
      var s, a, s' := run[n - 1], acts[n - 1], run[n];
      if a.Run? && a.t == t {
        StepNext(s, t, a.ch, s');
        NextWithin(call, s.thr[t], s'.thr[t]);
      } else {
        OthersLeave(s, a, s', t);
        OthersWithin(call, s.thr[t], s'.thr[t]);
      }
    }
  }

  /** An untimed wait never reports a timeout, and no other call does. */
  lemma OnlyTimedExpire(run: seq<State>, acts: seq<Action>, t: Tid, call: Call, i: nat, j: nat)
    requires IsRun(run, acts) && Calls(run, acts, t, call, i, j) && !(call.CallWait? && call.timed)
    ensures run[j].thr[t].res.code != ETIMEDOUT
  {
    StaysWithin(run, acts, t, call, i, j);
  }
}
