/** What a call does when nothing comes between its steps: the sequential meaning of the mutex calls. */
module SyncAlone {
  import opened Base
  import opened Sync
  import opened SyncSteps
  import opened SyncProof
  import opened SyncTheorems
  import opened SyncRuns
  import opened SyncCalls
  import SyncSignals
  import opened SyncCodes

  lemma StepInv(s: State, t: Tid, ch: Choice, s': State)
    requires Inv(s) && Step(s, t, ch, s')
    ensures Inv(s')
  {
    ActPreserves(s, Run(t, ch), s');
  }

  // ---- Looking the mutex up ---------------------------------------------

  /** What the slot says about its mutex. */
  datatype Slot = NoMutex | Unmade(kind: Kind) | Made(r: Rid)

  /** A slot names a mutex, or stands for one that the first lock makes, or neither. */
  function SlotOf(s: State, slot: U64): Slot {
    if slot !in s.mem then NoMutex
    else if s.mem[slot] == 0 then Unmade(ErrorCheck)
    else if s.mem[slot] == 1 then Unmade(Adaptive)
    else if s.mem[slot] in s.mtab then Made(s.mtab[s.mem[slot]])
    else NoMutex
  }

  lemma CallMoves(s: State, t: Tid, ch: Choice, s': State, slot: U64, req: MutexReq)
    requires Reachable(s) && Step(s, t, ch, s') && s.thr[t].Ret? && slot != 0
    requires (ch.call == CallLock(slot) && req == ReqLock(Plain)) || (ch.call == CallUnlock(slot) && req == ReqUnlock)
             || (ch.call == CallDestroy(slot) && req == ReqDestroy)
    ensures s' == At(s, t, MutexTable(slot, req)) && Inv(s')
  {
    ReachableInv(s);
    StepInv(s, t, ch, s');
  }

  lemma AtAgain(s: State, t: Tid, pc: Pc, pc': Pc)
    ensures At(At(s, t, pc), t, pc') == At(s, t, pc')
  {
    assert s.thr[t := pc][t := pc'] == s.thr[t := pc'];
  }

  /** What a look-up comes to: the record of a slot that names one; for a slot that stands for one, `made`; or a
      refusal. */
  ghost predicate Found(s: State, s': State, t: Tid, slot: U64, req: MutexReq, made: State) {
    match SlotOf(s, slot)
    case Made(r) => r in s.mrec && slot in s.mem && s' == At(s, t, MutexRecord(slot, s.mem[slot], r, req))
    case Unmade(kind) => s' == made
    case NoMutex => s' == At(s, t, Ret(Code(EINVAL)))
  }

  /** Looking up right after the call is looking up in the state that the call was made in. */
  lemma FoundFromCall(s: State, t: Tid, s1: State, s2: State, slot: U64, req: MutexReq, made: State)
    requires s1 == At(s, t, MutexTable(slot, req)) && Found(s1, s2, t, slot, req, made)
    ensures Found(s, s2, t, slot, req, made)
  {
    match SlotOf(s, slot)
    case Made(r) => AtAgain(s, t, MutexTable(slot, req), MutexRecord(slot, s.mem[slot], r, req));
    case Unmade(_) =>
    case NoMutex => AtAgain(s, t, MutexTable(slot, req), Ret(Code(EINVAL)));
  }

  /** The state in which a first lock has made the mutex of its slot, or could not. */
  function LockMade(s: State, t: Tid, ch: Choice, slot: U64): State {
    if slot in s.wr && SlotOf(s, slot).Unmade?
    then At(AddMutex(s, slot, ch.id, ch.h, SlotOf(s, slot).kind), t, MutexRecord(slot, ch.h, ch.id, ReqLock(Plain)))
    else At(s, t, Ret(Code(EINVAL)))
  }

  lemma MadeFromCall(s: State, t: Tid, ch: Choice, s1: State, slot: U64)
    requires s1 == At(s, t, MutexTable(slot, ReqLock(Plain)))
    ensures LockMade(s1, t, ch, slot) == LockMade(s, t, ch, slot)
  {
    AtAgain(s, t, MutexTable(slot, ReqLock(Plain)), Ret(Code(EINVAL)));
    AtAgain(s, t, MutexTable(slot, ReqLock(Plain)), MutexRecord(slot, ch.h, ch.id, ReqLock(Plain)));
  }

  lemma LockLooksUp(s: State, t: Tid, ch: Choice, s': State, slot: U64)
    requires Inv(s) && Step(s, t, ch, s') && s.thr[t] == MutexTable(slot, ReqLock(Plain))
    ensures Found(s, s', t, slot, ReqLock(Plain), LockMade(s, t, ch, slot)) && ch.id !in s.mrec && Inv(s')
  {
    StepInv(s, t, ch, s');
  }

  lemma UnlockLooksUp(s: State, t: Tid, ch: Choice, s': State, slot: U64)
    requires Inv(s) && Step(s, t, ch, s') && s.thr[t] == MutexTable(slot, ReqUnlock)
    ensures Found(s, s', t, slot, ReqUnlock, At(s, t, Ret(Code(EPERM)))) && Inv(s')
  {
    StepInv(s, t, ch, s');
  }

  lemma DestroyLooksUp(s: State, t: Tid, ch: Choice, s': State, slot: U64)
    requires Inv(s) && Step(s, t, ch, s') && s.thr[t] == MutexTable(slot, ReqDestroy)
    ensures Found(s, s', t, slot, ReqDestroy, At(s, t, Ret(Code(0)))) && Inv(s')
  {
    StepInv(s, t, ch, s');
  }

  // ---- Lock -------------------------------------------------------------

  /** What a lock answers at once; nothing if it has to wait. */
  function LockAnswer(m: MutexRec, t: Tid): Option<int> {
    if m.owner == None then Some(0)
    else if m.owner != Some(t) || m.kind == Normal then None
    else if m.kind != Recursive then Some(EDEADLK)
    else if m.depth == U64_MAX then Some(EAGAIN) else Some(0)
  }

  lemma RecordAnswers(s: State, t: Tid, r: Rid)
    requires r in s.mrec && RecordOk(s, r, s.mrec[r])
    ensures var s' := LockStep(s, t, r, Plain);
            t in s'.thr && match LockAnswer(s.mrec[r], t)
                           case Some(code) => s'.thr[t] == Ret(Code(code))
                           case None => s'.thr[t] == Asleep(r, Plain)
  {
    if !(s.mrec[r].locked && s.mrec[r].owner == Some(t)) { OtherMoves(s, t, r, Plain); }
    else if s.mrec[r].kind == Recursive { RecursiveMoves(s, t, r, Plain); }
    else { OnceMoves(s, t, r, Plain); }
  }

  lemma LocksAtOnce(s: State, t: Tid, ch: Choice, s': State, slot: U64, h: U64, r: Rid)
    requires Inv(s) && Step(s, t, ch, s') && s.thr[t] == MutexRecord(slot, h, r, ReqLock(Plain))
    ensures r in s.mrec && t in s'.thr
    ensures match LockAnswer(s.mrec[r], t)
            case Some(code) => s'.thr[t] == Ret(Code(code)) && if code == 0 then Deeper(s, s', t, r)
                                                               else SameDepths(s, s', t)
            case None => !s'.thr[t].Ret? && SameDepths(s, s', t)
  {
    LocksRecord(s, t, ch, s', slot, h, r, Plain);
    assert RecordOk(s, r, s.mrec[r]);
    RecordAnswers(s, t, r);
    RecordLocks(s, t, ch, s', slot, h, r);
  }

  /** Two steps with nothing in between: the call, and the look-up in the state that it was made in. */
  lemma LockFinds(s: State, t: Tid, c0: Choice, s1: State, c1: Choice, s2: State, slot: U64)
    requires Reachable(s) && t in s.thr && s.thr[t].Ret? && c0.call == CallLock(slot) && slot != 0
    requires Step(s, t, c0, s1) && Step(s1, t, c1, s2)
    ensures Found(s, s2, t, slot, ReqLock(Plain), LockMade(s, t, c1, slot)) && c1.id !in s.mrec && Inv(s2)
  {
    CallMoves(s, t, c0, s1, slot, ReqLock(Plain));
    LockLooksUp(s1, t, c1, s2, slot);
    MadeFromCall(s, t, c1, s1, slot);
    FoundFromCall(s, t, s1, s2, slot, ReqLock(Plain), LockMade(s, t, c1, slot));
  }

  /** Three steps with nothing in between: a lock on a mutex that nobody holds, or that is recursive and the thread's
      own, takes it; on an own mutex of another kind it reports the deadlock, unless the mutex is a normal one; and
      on another thread's it waits. */
  lemma LockAlone(s: State, t: Tid, c0: Choice, s1: State, c1: Choice, s2: State, c2: Choice, s3: State, slot: U64,
                  r: Rid)
    requires Reachable(s) && t in s.thr && s.thr[t].Ret? && c0.call == CallLock(slot) && slot != 0
    requires Step(s, t, c0, s1) && Step(s1, t, c1, s2) && Step(s2, t, c2, s3) && SlotOf(s, slot) == Made(r)
    ensures r in s.mrec && t in s3.thr
    ensures match LockAnswer(s.mrec[r], t)
            case Some(code) => s3.thr[t] == Ret(Code(code)) && if code == 0 then Deeper(s, s3, t, r)
                                                               else SameDepths(s, s3, t)
            case None => !s3.thr[t].Ret? && SameDepths(s, s3, t)
  {
    LockFinds(s, t, c0, s1, c1, s2, slot);
    LocksAtOnce(s2, t, c2, s3, slot, s.mem[slot], r);
  }

  /** The slot has come to name a new mutex of this kind, and `t` holds it. */
  ghost predicate MadeAndTaken(s: State, s': State, t: Tid, slot: U64, kind: Kind) {
    && t in s'.thr && s'.thr[t] == Ret(Code(0)) && SlotOf(s', slot).Made?
    && var r := SlotOf(s', slot).r;
       r !in s.mrec && r in s'.mrec && s'.mrec[r].kind == kind && Deeper(s, s', t, r)
  }

  lemma TakesMade(s: State, t: Tid, c1: Choice, s2: State, c2: Choice, s3: State, slot: U64)
    requires SlotOf(s, slot).Unmade? && slot in s.wr && c1.id !in s.mrec && s2 == LockMade(s, t, c1, slot)
    requires Inv(s2) && Step(s2, t, c2, s3)
    ensures MadeAndTaken(s, s3, t, slot, SlotOf(s, slot).kind)
  {
    LocksAtOnce(s2, t, c2, s3, slot, c1.h, c1.id);
    MadeStays(s2, t, c2, s3, slot, c1.h, c1.id);
    assert ThreadOk(s2, t, s2.thr[t]);
  }

  /** A lock on a slot that stands for a mutex makes one of the kind that the slot says, publishes it in the slot and
      takes it; where the slot cannot be written, or there is no mutex, the lock is invalid. */
  lemma LockMakes(s: State, t: Tid, c0: Choice, s1: State, c1: Choice, s2: State, c2: Choice, s3: State, slot: U64)
    requires Reachable(s) && t in s.thr && s.thr[t].Ret? && c0.call == CallLock(slot) && slot != 0
    requires Step(s, t, c0, s1) && Step(s1, t, c1, s2) && Step(s2, t, c2, s3) && !SlotOf(s, slot).Made?
    ensures if SlotOf(s, slot).Unmade? && slot in s.wr then MadeAndTaken(s, s3, t, slot, SlotOf(s, slot).kind)
            else s2 == At(s, t, Ret(Code(EINVAL)))
  {
    LockFinds(s, t, c0, s1, c1, s2, slot);
    if SlotOf(s, slot).Unmade? && slot in s.wr { TakesMade(s, t, c1, s2, c2, s3, slot); }
  }

  /** Locking a record changes neither its kind nor what the slot says. */
  lemma MadeStays(s: State, t: Tid, ch: Choice, s': State, slot: U64, h: U64, r: Rid)
    requires Step(s, t, ch, s') && s.thr[t] == MutexRecord(slot, h, r, ReqLock(Plain))
    ensures s'.mem == s.mem && s'.mtab == s.mtab && r in s'.mrec && s'.mrec[r].kind == s.mrec[r].kind
  {
    LocksRecord(s, t, ch, s', slot, h, r, Plain);
    LockLeaves(s, t, r);
  }

  lemma LockLeaves(s: State, t: Tid, r: Rid)
    requires r in s.mrec
    ensures var s' := LockStep(s, t, r, Plain);
            s'.mem == s.mem && s'.mtab == s.mtab && r in s'.mrec && s'.mrec[r].kind == s.mrec[r].kind
  {
    if !(s.mrec[r].locked && s.mrec[r].owner == Some(t)) { OtherRecords(s, t, r, Plain); }
    else if s.mrec[r].kind == Recursive { RecursiveRecords(s, t, r, Plain); }
    else { OnceRecords(s, t, r, Plain); }
    LockSpaces(s, t, r);
  }

  lemma LockSpaces(s: State, t: Tid, r: Rid)
    requires r in s.mrec
    ensures var s' := LockStep(s, t, r, Plain); s'.mem == s.mem && s'.mtab == s.mtab
  {
    if s.mrec[r].locked && s.mrec[r].owner == Some(t) { OwnLockSpaces(s, t, r); } else { OtherLockSpaces(s, t, r); }
  }

  lemma OwnLockSpaces(s: State, t: Tid, r: Rid)
    requires r in s.mrec && s.mrec[r].locked && s.mrec[r].owner == Some(t)
    ensures var s' := LockStep(s, t, r, Plain); s'.mem == s.mem && s'.mtab == s.mtab
  {
  }

  lemma OtherLockSpaces(s: State, t: Tid, r: Rid)
    requires r in s.mrec && !(s.mrec[r].locked && s.mrec[r].owner == Some(t))
    ensures var s' := LockStep(s, t, r, Plain); s'.mem == s.mem && s'.mtab == s.mtab
  {
  }

  /** A waiter that is woken takes the mutex if nobody holds it, and waits on otherwise. */
  lemma WokenAnswers(s: State, t: Tid, ch: Choice, s': State, r: Rid)
    requires Reachable(s) && Step(s, t, ch, s') && s.thr[t] == Woken(r, Plain)
    ensures r in s.mrec && t in s'.thr
    ensures if s.mrec[r].owner == None then s'.thr[t] == Ret(Code(0)) && Deeper(s, s', t, r)
            else !s'.thr[t].Ret? && SameDepths(s, s', t)
  {
    ReachableInv(s);
    assert RecordOk(s, r, s.mrec[r]);
    WokenLocks(s, t, ch, s', r);
    WokenMoves(s, t, r);
  }

  lemma WokenMoves(s: State, t: Tid, r: Rid)
    requires r in s.mrec && s.mrec[r].waiters > 0
    ensures WokenStep(s, t, r, Plain).thr[t] == if s.mrec[r].locked then Asleep(r, Plain) else Ret(Code(0))
  {
  }

  // ---- Unlock -----------------------------------------------------------

  lemma UnlockFinds(s: State, t: Tid, c0: Choice, s1: State, c1: Choice, s2: State, slot: U64)
    requires Reachable(s) && t in s.thr && s.thr[t].Ret? && c0.call == CallUnlock(slot) && slot != 0
    requires Step(s, t, c0, s1) && Step(s1, t, c1, s2)
    ensures Found(s, s2, t, slot, ReqUnlock, At(s, t, Ret(Code(EPERM)))) && Inv(s2)
  {
    CallMoves(s, t, c0, s1, slot, ReqUnlock);
    UnlockLooksUp(s1, t, c1, s2, slot);
    AtAgain(s, t, MutexTable(slot, ReqUnlock), Ret(Code(EPERM)));
    FoundFromCall(s, t, s1, s2, slot, ReqUnlock, At(s, t, Ret(Code(EPERM))));
  }

  lemma UnlockAnswers(s: State, t: Tid, ch: Choice, s': State, slot: U64, h: U64, r: Rid)
    requires Inv(s) && Step(s, t, ch, s') && s.thr[t] == MutexRecord(slot, h, r, ReqUnlock)
    ensures r in s.mrec && t in s'.thr
    ensures if s.mrec[r].owner != Some(t) then s'.thr[t] == Ret(Code(EPERM)) && SameDepths(s, s', t)
            else Shallower(s, s', t, r)
                 && s'.thr[t] == if s.mrec[r].depth > 1 then Ret(Code(0)) else UnlockNotify(r)
  {
    assert RecordOk(s, r, s.mrec[r]);
    UnlocksRecord(s, t, r);
    UnlockMoves(s, t, r);
  }

  lemma UnlockMoves(s: State, t: Tid, r: Rid)
    requires r in s.mrec && RecordOk(s, r, s.mrec[r])
    ensures UnlockStep(s, t, r).thr[t] == if s.mrec[r].owner != Some(t) then Ret(Code(EPERM))
                                          else if s.mrec[r].depth > 1 then Ret(Code(0)) else UnlockNotify(r)
  {
  }

  /** Three steps with nothing in between: the holder gives the mutex up once, and is back unless it has to notify;
      anyone else is not permitted to. */
  lemma UnlockAlone(s: State, t: Tid, c0: Choice, s1: State, c1: Choice, s2: State, c2: Choice, s3: State, slot: U64,
                    r: Rid)
    requires Reachable(s) && t in s.thr && s.thr[t].Ret? && c0.call == CallUnlock(slot) && slot != 0
    requires Step(s, t, c0, s1) && Step(s1, t, c1, s2) && Step(s2, t, c2, s3) && SlotOf(s, slot) == Made(r)
    ensures r in s.mrec && t in s3.thr
    ensures if s.mrec[r].owner != Some(t) then s3.thr[t] == Ret(Code(EPERM)) && SameDepths(s, s3, t)
            else Shallower(s, s3, t, r) && s3.thr[t] == if s.mrec[r].depth > 1 then Ret(Code(0)) else UnlockNotify(r)
  {
    UnlockFinds(s, t, c0, s1, c1, s2, slot);
    UnlockAnswers(s2, t, c2, s3, slot, s.mem[slot], r);
  }

  /** Unlocking what is no mutex yet is not permitted, and what cannot be one is invalid. */
  lemma UnlockRefused(s: State, t: Tid, c0: Choice, s1: State, c1: Choice, s2: State, slot: U64)
    requires Reachable(s) && t in s.thr && s.thr[t].Ret? && c0.call == CallUnlock(slot) && slot != 0
    requires Step(s, t, c0, s1) && Step(s1, t, c1, s2) && !SlotOf(s, slot).Made?
    ensures s2 == At(s, t, Ret(Code(if SlotOf(s, slot).Unmade? then EPERM else EINVAL)))
  {
    UnlockFinds(s, t, c0, s1, c1, s2, slot);
  }

  /** The notification that ends an unlock wakes one of the threads asleep on the mutex, if there are any, and returns
      0. */
  lemma UnlockNotifies(s: State, t: Tid, ch: Choice, s': State, r: Rid)
    requires Step(s, t, ch, s') && s.thr[t] == UnlockNotify(r)
    ensures t in s'.thr && s'.thr[t] == Ret(Code(0)) && s'.mrec == s.mrec
    ensures (exists v :: v in s.thr && s.thr[v].Asleep? && s.thr[v].r == r) ==>
              exists v :: v in s.thr && s.thr[v].Asleep? && s.thr[v].r == r && v in s'.thr && s'.thr[v].Woken?
  {
    if ch.pick.Some? { assert ch.pick.value in s'.thr && s'.thr[ch.pick.value].Woken?; }
  }

  // ---- Init and destroy -------------------------------------------------

  /** The slot has come to name a new mutex of this kind that nobody holds. */
  ghost predicate NewMutex(s: State, s': State, t: Tid, slot: U64, kind: Kind) {
    && t in s'.thr && s'.thr[t] == Ret(Code(0)) && SlotOf(s', slot).Made?
    && var r := SlotOf(s', slot).r;
       r !in s.mrec && r in s'.mrec && s'.mrec[r].kind == kind && s'.mrec[r].owner == None && s'.mrec - {r} == s.mrec
  }

  /** An init makes such a mutex, unless the slot has one or cannot be accessed. */
  ghost predicate Inits(s: State, s': State, t: Tid, slot: U64, kind: Kind) {
    if slot !in s.mem then s' == At(s, t, Ret(Code(EINVAL)))
    else if s.mem[slot] > 2 then s' == At(s, t, Ret(Code(EBUSY)))
    else NewMutex(s, s', t, slot, kind)
  }

  lemma InitMakes(s: State, t: Tid, ch: Choice, s': State, slot: U64, kind: Kind)
    requires Step(s, t, ch, s') && s.thr[t] == MutexTable(slot, ReqInit(kind)) && slot in s.wr
    ensures Inits(s, s', t, slot, kind)
  {
    if slot in s.mem && s.mem[slot] <= 2 {
      assert s' == At(AddMutex(s, slot, ch.id, ch.h, kind), t, Ret(Code(0)));
      assert s'.mrec - {ch.id} == s.mrec;
    }
  }

  lemma InitFromCall(s: State, t: Tid, s1: State, s2: State, slot: U64, kind: Kind)
    requires s1 == At(s, t, MutexTable(slot, ReqInit(kind))) && Inits(s1, s2, t, slot, kind)
    ensures Inits(s, s2, t, slot, kind)
  {
    AtAgain(s, t, MutexTable(slot, ReqInit(kind)), Ret(Code(EINVAL)));
    AtAgain(s, t, MutexTable(slot, ReqInit(kind)), Ret(Code(EBUSY)));
  }

  lemma InitCalls(s: State, t: Tid, ch: Choice, s': State, slot: U64, kind: Kind)
    requires Step(s, t, ch, s') && s.thr[t].Ret? && ch.call == CallInit(slot, kind) && slot != 0
    ensures s' == At(s, t, if slot in s.wr then MutexTable(slot, ReqInit(kind)) else Ret(Code(EINVAL)))
  {
  }

  /** Two steps with nothing in between: an init makes a mutex of the kind asked for and publishes it in the slot,
      unless the slot has one or cannot be accessed. */
  lemma InitAlone(s: State, t: Tid, c0: Choice, s1: State, c1: Choice, s2: State, slot: U64, kind: Kind)
    requires t in s.thr && s.thr[t].Ret? && c0.call == CallInit(slot, kind) && slot != 0
    requires Step(s, t, c0, s1) && (slot in s.wr ==> Step(s1, t, c1, s2))
    ensures if slot in s.wr then Inits(s, s2, t, slot, kind) else s1 == At(s, t, Ret(Code(EINVAL)))
  {
    InitCalls(s, t, c0, s1, slot, kind);
    if slot in s.wr {
      InitMakes(s1, t, c1, s2, slot, kind);
      InitFromCall(s, t, s1, s2, slot, kind);
    }
  }

  lemma DestroyFinds(s: State, t: Tid, c0: Choice, s1: State, c1: Choice, s2: State, slot: U64)
    requires Reachable(s) && t in s.thr && s.thr[t].Ret? && c0.call == CallDestroy(slot) && slot != 0
    requires Step(s, t, c0, s1) && Step(s1, t, c1, s2)
    ensures Found(s, s2, t, slot, ReqDestroy, At(s, t, Ret(Code(0)))) && Inv(s2)
  {
    CallMoves(s, t, c0, s1, slot, ReqDestroy);
    DestroyLooksUp(s1, t, c1, s2, slot);
    AtAgain(s, t, MutexTable(slot, ReqDestroy), Ret(Code(0)));
    FoundFromCall(s, t, s1, s2, slot, ReqDestroy, At(s, t, Ret(Code(0))));
  }

  /** A mutex that is held or waited for is busy; any other leaves the table, and its slot names nothing from then on,
      if it can be written. */
  ghost predicate Destroys(s: State, s': State, t: Tid, slot: U64, r: Rid)
    requires r in s.mrec
  {
    if s.mrec[r].owner != None || s.mrec[r].waiters > 0 then s' == At(s, t, Ret(Code(EBUSY)))
    else && t in s'.thr && s'.thr[t] == Ret(Code(if slot in s.wr then 0 else EINVAL)) && s'.mrec == s.mrec
         && !LiveMutex(s', r) && SlotOf(s', slot) == NoMutex
  }

  lemma DestroyAnswers(s: State, t: Tid, ch: Choice, s': State, slot: U64, h: U64, r: Rid)
    requires Inv(s) && Step(s, t, ch, s') && s.thr[t] == MutexRecord(slot, h, r, ReqDestroy)
    requires slot in s.mem && s.mem[slot] == h && h in s.mtab && s.mtab[h] == r
    ensures r in s.mrec && Destroys(s, s', t, slot, r)
  {
    assert RecordOk(s, r, s.mrec[r]);
  }

  /** Three steps with nothing in between. */
  lemma DestroyAlone(s: State, t: Tid, c0: Choice, s1: State, c1: Choice, s2: State, c2: Choice, s3: State, slot: U64,
                     r: Rid)
    requires Reachable(s) && t in s.thr && s.thr[t].Ret? && c0.call == CallDestroy(slot) && slot != 0
    requires Step(s, t, c0, s1) && Step(s1, t, c1, s2) && Step(s2, t, c2, s3) && SlotOf(s, slot) == Made(r)
    ensures r in s.mrec && Destroys(s, s3, t, slot, r)
  {
    DestroyFinds(s, t, c0, s1, c1, s2, slot);
    DestroyAnswers(s2, t, c2, s3, slot, s.mem[slot], r);
    AtAgain(s, t, MutexRecord(slot, s.mem[slot], r, ReqDestroy), Ret(Code(EBUSY)));
  }

  // ---- Init and destroy of conditions -----------------------------------

  /** The slot has come to name a new condition that nobody waits for. */
  ghost predicate NewCond(s: State, s': State, t: Tid, slot: U64) {
    && t in s'.thr && s'.thr[t] == Ret(Code(0))
    && exists c :: SyncSignals.NamesCond(s', slot, c) && c !in s.crec && c in s'.crec && s'.crec[c].queue == []
                   && s'.crec - {c} == s.crec
  }

  /** Two steps with nothing in between: an init makes a condition and publishes it in the slot. */
  lemma CondInitAlone(s: State, t: Tid, c0: Choice, s1: State, c1: Choice, s2: State, slot: U64)
    requires t in s.thr && s.thr[t].Ret? && c0.call == CallCondInit(slot)
    requires Step(s, t, c0, s1) && (slot != 0 && slot in s.wr ==> Step(s1, t, c1, s2))
    ensures if slot != 0 && slot in s.wr then NewCond(s, s2, t, slot) else s1 == At(s, t, Ret(Code(EINVAL)))
  {
    if slot != 0 && slot in s.wr { CondInitMakes(s, t, s1, c1, s2, slot); }
  }

  lemma CondInitMakes(s: State, t: Tid, s1: State, ch: Choice, s2: State, slot: U64)
    requires s1 == At(s, t, CondTable(slot, ReqCondInit)) && slot in s.wr && Step(s1, t, ch, s2)
    ensures NewCond(s, s2, t, slot)
  {
    assert s2 == At(AddCond(s1, slot, ch.id, ch.h), t, Ret(Code(0)));
    CondMade(s1, s2, t, slot, ch.id, ch.h);
  }

  lemma CondMade(s: State, s': State, t: Tid, slot: U64, c: Cid, h: U64)
    requires FreshCond(s, c, h) && s' == At(AddCond(s, slot, c, h), t, Ret(Code(0)))
    ensures NewCond(s, s', t, slot)
  {
    assert SyncSignals.NamesCond(s', slot, c) && s'.crec - {c} == s.crec;
  }

  /** A condition that somebody waits for is busy; any other leaves the table, and its slot names none from then on. */
  ghost predicate CondDestroys(s: State, s': State, t: Tid, slot: U64, c: Cid)
    requires c in s.crec && slot in s.mem
  {
    if s.crec[c].queue != [] then s' == At(s, t, Ret(Code(EBUSY)))
    else && t in s'.thr && s'.thr[t] == Ret(Code(0)) && s'.crec == s.crec && s'.mem == s.mem[slot := COND_DESTROYED]
         && s'.ctab == s.ctab - {s.mem[slot]}
  }

  /** Three steps with nothing in between; a slot that was never used has nothing to destroy, and a wrong one is
      refused. */
  lemma CondDestroyAlone(s: State, t: Tid, c0: Choice, s1: State, c1: Choice, s2: State, c2: Choice, s3: State,
                         slot: U64)
    requires Reachable(s) && t in s.thr && s.thr[t].Ret? && c0.call == CallCondDestroy(slot)
    requires slot != 0 && slot in s.wr && slot in s.mem
    requires Step(s, t, c0, s1) && Step(s1, t, c1, s2) && Step(s2, t, c2, s3)
    ensures if s.mem[slot] == 0 then s2 == At(s, t, Ret(Code(0)))
            else if s.mem[slot] == COND_DESTROYED || s.mem[slot] !in s.ctab then s2 == At(s, t, Ret(Code(EINVAL)))
            else s.ctab[s.mem[slot]] in s.crec && CondDestroys(s, s3, t, slot, s.ctab[s.mem[slot]])
  {
    assert s1 == At(s, t, CondTable(slot, ReqCondDestroy));
    CondDestroyLooks(s, t, s1, c1, s2, slot);
    if s.mem[slot] != 0 && s.mem[slot] != COND_DESTROYED && s.mem[slot] in s.ctab {
      CondDestroyEnds(s, t, s2, c2, s3, slot, s.ctab[s.mem[slot]]);
    }
  }

  lemma CondDestroyLooks(s: State, t: Tid, s1: State, ch: Choice, s2: State, slot: U64)
    requires s1 == At(s, t, CondTable(slot, ReqCondDestroy)) && slot in s.mem && Step(s1, t, ch, s2)
    ensures s2 == At(s, t, if s.mem[slot] == 0 then Ret(Code(0))
                           else if s.mem[slot] == COND_DESTROYED || s.mem[slot] !in s.ctab then Ret(Code(EINVAL))
                           else CondRecord(slot, s.mem[slot], s.ctab[s.mem[slot]], ReqCondDestroy))
  {
    var pc := if s.mem[slot] == 0 then Ret(Code(0))
              else if s.mem[slot] == COND_DESTROYED || s.mem[slot] !in s.ctab then Ret(Code(EINVAL))
              else CondRecord(slot, s.mem[slot], s.ctab[s.mem[slot]], ReqCondDestroy);
    CondDestroyMoves(s1, t, slot, ch.id, ch.h);
    assert s2 == At(s1, t, pc);
    AtAgain(s, t, CondTable(slot, ReqCondDestroy), pc);
  }

  lemma CondDestroyMoves(s: State, t: Tid, slot: U64, c: Cid, h: U64)
    requires slot in s.mem
    ensures CondTableStep(s, t, slot, ReqCondDestroy, c, h)
            == At(s, t, if s.mem[slot] == 0 then Ret(Code(0))
                        else if s.mem[slot] == COND_DESTROYED || s.mem[slot] !in s.ctab then Ret(Code(EINVAL))
                        else CondRecord(slot, s.mem[slot], s.ctab[s.mem[slot]], ReqCondDestroy))
  {
  }

  lemma CondDestroyEnds(s: State, t: Tid, s2: State, ch: Choice, s3: State, slot: U64, c: Cid)
    requires slot in s.mem && slot in s.wr && s2 == At(s, t, CondRecord(slot, s.mem[slot], c, ReqCondDestroy))
    requires Step(s2, t, ch, s3)
    ensures c in s.crec && CondDestroys(s, s3, t, slot, c)
  {
    assert s3 == CondRecordStep(s2, t, slot, s.mem[slot], c, ReqCondDestroy);
    AtAgain(s, t, CondRecord(slot, s.mem[slot], c, ReqCondDestroy), Ret(Code(EBUSY)));
  }
}
