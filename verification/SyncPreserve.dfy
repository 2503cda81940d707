/** One lemma per step of the mutex and condition machine. */
module SyncPreserve {
  import opened Base
  import opened Sync
  import opened SyncSteps
  import opened SyncProof

  /** What `Inv` says about thread `t` itself. */
  ghost predicate Local(s: State, t: Tid) {
    t in s.thr && ThreadOk(s, t, s.thr[t]) && WaitOk(s, t, s.thr[t]) && Tables(s)
  }

  /** `Movable` and the counts agree, so `Move` applies. */
  ghost predicate Movable1(s: State, t: Tid, pc': Pc) {
    && Movable(s, At(s, t, pc'), t, pc')
    && forall r :: WaitsOn(pc', r) == WaitsOn(s.thr[t], r) && Restoring(pc', r) == Restoring(s.thr[t], r)
  }

  lemma CallMovable(s: State, t: Tid, call: Call)
    requires t in s.thr && s.thr[t].Ret?
    ensures Movable1(s, t, Entry(s, call))
  {
  }

  lemma CallStep(s: State, t: Tid, call: Call)
    requires Inv(s) && t in s.thr && s.thr[t].Ret?
    ensures Inv(At(s, t, Entry(s, call)))
  {
    CallMovable(s, t, call);
    Move(s, t, Entry(s, call));
  }

  // ---- New records ------------------------------------------------------

  lemma AddMutexThreads(s: State, slot: U64, r: Rid, h: U64, kind: Kind)
    requires Threads(s) && Waits(s) && Tables(s) && FreshMutex(s, r, h)
    ensures var s' := AddMutex(s, slot, r, h, kind); Threads(s') && Waits(s') && Tables(s')
  {
    var s' := AddMutex(s, slot, r, h, kind);
    forall t | t in s'.thr ensures ThreadOk(s', t, s'.thr[t]) && WaitOk(s', t, s'.thr[t]) {
      assert ThreadOk(s, t, s.thr[t]) && WaitOk(s, t, s.thr[t]);
    }
  }

  lemma AddMutexRecords(s: State, slot: U64, r: Rid, h: U64, kind: Kind)
    requires Threads(s) && Mutexes(s) && History(s) && FreshMutex(s, r, h) && Tables(s)
    ensures var s' := AddMutex(s, slot, r, h, kind); Mutexes(s') && History(s')
  {
    var s' := AddMutex(s, slot, r, h, kind);
    forall x | x in s'.mrec ensures RecordOk(s', x, s'.mrec[x]) {
      if x == r {
        forall v | v in s.thr ensures !WaitsOn(s.thr[v], r) { assert ThreadOk(s, v, s.thr[v]); }
        assert Waiters(s.thr, r) == {};
      } else {
        assert RecordOk(s, x, s.mrec[x]);
      }
    }
    forall u, x ensures Balance(s'.log, u, x) == Believed(s', u, x) {
      assert Balance(s.log, u, x) == Believed(s, u, x);
    }
  }

  lemma AddMutexWakeups(s: State, slot: U64, r: Rid, h: U64, kind: Kind)
    requires Threads(s) && NoLostWakeup(s) && NoLostToken(s) && Queues(s) && FreshMutex(s, r, h)
    ensures var s' := AddMutex(s, slot, r, h, kind); NoLostWakeup(s') && NoLostToken(s') && Queues(s')
  {
    var s' := AddMutex(s, slot, r, h, kind);
    forall v | v in s'.thr && s'.thr[v].Asleep? ensures s'.thr[v].r in s.mrec { assert ThreadOk(s, v, s.thr[v]); }
    forall c, k | c in s'.crec && k in s'.crec[c].queue ensures QueuedOk(s', c, k) { assert QueuedOk(s, c, k); }
  }

  lemma AddMutexKeepsInv(s: State, slot: U64, r: Rid, h: U64, kind: Kind)
    requires Inv(s) && FreshMutex(s, r, h)
    ensures Inv(AddMutex(s, slot, r, h, kind))
  {
    AddMutexThreads(s, slot, r, h, kind);
    AddMutexRecords(s, slot, r, h, kind);
    AddMutexWakeups(s, slot, r, h, kind);
  }

  lemma AddCondThreads(s: State, slot: U64, c: Cid, h: U64)
    requires Threads(s) && FreshCond(s, c, h)
    ensures Threads(AddCond(s, slot, c, h))
  {
    var s' := AddCond(s, slot, c, h);
    forall t | t in s'.thr ensures ThreadOk(s', t, s'.thr[t]) { assert ThreadOk(s, t, s.thr[t]); }
  }

  lemma AddCondWaits(s: State, slot: U64, c: Cid, h: U64)
    requires Waits(s) && Tables(s) && Queues(s) && FreshCond(s, c, h)
    ensures var s' := AddCond(s, slot, c, h); Waits(s') && Tables(s') && Queues(s')
  {
    var s' := AddCond(s, slot, c, h);
    forall t | t in s'.thr ensures WaitOk(s', t, s'.thr[t]) { assert WaitOk(s, t, s.thr[t]); }
    forall x, k | x in s'.crec && k in s'.crec[x].queue ensures QueuedOk(s', x, k) { assert QueuedOk(s, x, k); }
  }

  lemma SameMutexes(s: State, s': State)
    requires Mutexes(s) && History(s) && s'.mrec == s.mrec && s'.thr == s.thr && s'.log == s.log && s'.mtab == s.mtab
    ensures Mutexes(s') && History(s')
  {
    forall r | r in s'.mrec ensures RecordOk(s', r, s'.mrec[r]) { assert RecordOk(s, r, s.mrec[r]); }
    forall u, x ensures Balance(s'.log, u, x) == Believed(s', u, x) {
      assert Balance(s.log, u, x) == Believed(s, u, x);
    }
  }

  lemma AddCondKeepsInv(s: State, slot: U64, c: Cid, h: U64)
    requires Inv(s) && FreshCond(s, c, h)
    ensures Inv(AddCond(s, slot, c, h))
  {
    AddCondThreads(s, slot, c, h);
    AddCondWaits(s, slot, c, h);
    SameMutexes(s, AddCond(s, slot, c, h));
  }

  // ---- Under the mutex table --------------------------------------------

  lemma FailMovable(s: State, t: Tid, slot: U64, req: MutexReq, code: int)
    requires Local(s, t) && s.thr[t] == MutexTable(slot, req)
    ensures Movable1(s, t, Failing(req, code))
  {
  }

  lemma FoundMovable(s: State, t: Tid, slot: U64, h: U64, req: MutexReq, r: Rid)
    requires Local(s, t) && s.thr[t] == MutexTable(slot, req) && !req.ReqInit?
    requires h in s.mtab && s.mtab[h] == r && Free(s, t, MutexTableLock)
    ensures Movable1(s, t, AfterLook(slot, h, req, r))
  {
  }

  function Failing(req: MutexReq, code: int): Pc {
    if req.ReqLock? then LockFails(req.k, code) else Ret(Code(code))
  }

  /** The three ways a step under the mutex table can go. */
  lemma MutexTableShape(s: State, t: Tid, slot: U64, req: MutexReq, r: Rid, h: U64)
    ensures var s' := MutexTableStep(s, t, slot, req, r, h);
      || (exists code :: s' == At(s, t, Failing(req, code)))
      || (exists g :: !req.ReqInit? && g in s.mtab && s' == At(s, t, AfterLook(slot, g, req, s.mtab[g])))
      || (exists kind :: s' == At(AddMutex(s, slot, r, h, kind), t, if req.ReqInit? then Failing(req, 0)
                                                                    else AfterLook(slot, h, req, r)))
  {
    var s' := MutexTableStep(s, t, slot, req, r, h);
    match req
    case ReqInit(kind) =>
      if slot !in s.mem || (s.mem[slot] <= MUTEX_DESTROYED && slot !in s.wr) {
        assert s' == At(s, t, Failing(req, EINVAL));
      }
      else if s.mem[slot] > MUTEX_DESTROYED { assert s' == At(s, t, Failing(req, EBUSY)); }
    case ReqDestroy =>
      if slot !in s.mem { assert s' == At(s, t, Failing(req, EINVAL)); }
      else if s.mem[slot] < MUTEX_DESTROYED { assert s' == At(s, t, Failing(req, 0)); }
      else if s.mem[slot] == MUTEX_DESTROYED || s.mem[slot] !in s.mtab { assert s' == At(s, t, Failing(req, EINVAL)); }
    case _ =>
      var look := LookMutex(s, slot, !req.ReqUnlock?);
      match look
      case Miss(code) => assert s' == At(s, t, Failing(req, code));
      case Hit(id) =>
      case Make(kind) =>
  }

  lemma Localise(s: State, t: Tid)
    requires Inv(s) && t in s.thr
    ensures Local(s, t)
  {
  }

  lemma FailPreserves(s: State, t: Tid, slot: U64, req: MutexReq, code: int)
    requires Inv(s) && t in s.thr && s.thr[t] == MutexTable(slot, req)
    ensures Inv(At(s, t, Failing(req, code)))
  {
    Localise(s, t);
    FailMovable(s, t, slot, req, code);
    Move(s, t, Failing(req, code));
  }

  lemma FoundPreserves(s: State, t: Tid, slot: U64, h: U64, req: MutexReq)
    requires Inv(s) && Ready(s, t) && s.thr[t] == MutexTable(slot, req) && !req.ReqInit? && h in s.mtab
    ensures Inv(At(s, t, AfterLook(slot, h, req, s.mtab[h])))
  {
    Localise(s, t);
    FoundMovable(s, t, slot, h, req, s.mtab[h]);
    Move(s, t, AfterLook(slot, h, req, s.mtab[h]));
  }

  lemma MadePreserves(s: State, t: Tid, slot: U64, req: MutexReq, r: Rid, h: U64, kind: Kind)
    requires Inv(s) && Ready(s, t) && s.thr[t] == MutexTable(slot, req) && FreshMutex(s, r, h)
    ensures Inv(At(AddMutex(s, slot, r, h, kind), t, if req.ReqInit? then Failing(req, 0)
                                                     else AfterLook(slot, h, req, r)))
  {
    var mid := AddMutex(s, slot, r, h, kind);
    AddMutexKeepsInv(s, slot, r, h, kind);
    if req.ReqInit? { FailPreserves(mid, t, slot, req, 0); } else { FoundPreserves(mid, t, slot, h, req); }
  }

  lemma MutexTablePreserves(s: State, t: Tid, slot: U64, req: MutexReq, r: Rid, h: U64)
    requires Inv(s) && Ready(s, t) && s.thr[t] == MutexTable(slot, req) && FreshMutex(s, r, h)
    ensures Inv(MutexTableStep(s, t, slot, req, r, h))
  {
    var s' := MutexTableStep(s, t, slot, req, r, h);
    MutexTableShape(s, t, slot, req, r, h);
    if code :| s' == At(s, t, Failing(req, code)) {
      FailPreserves(s, t, slot, req, code);
    } else if g :| !req.ReqInit? && g in s.mtab && s' == At(s, t, AfterLook(slot, g, req, s.mtab[g])) {
      FoundPreserves(s, t, slot, g, req);
    } else {
      var kind :| s' == At(AddMutex(s, slot, r, h, kind), t, if req.ReqInit? then Failing(req, 0)
                                                             else AfterLook(slot, h, req, r));
      MadePreserves(s, t, slot, req, r, h, kind);
    }
  }

  // ---- Under a mutex record ---------------------------------------------

  /** What `Inv` says about record `r` and thread `t`. */
  ghost predicate Local2(s: State, t: Tid, r: Rid) {
    && Local(s, t) && r in s.mrec && RecordOk(s, r, s.mrec[r]) && Balance(s.log, t, r) == Believed(s, t, r)
  }

  lemma Localise2(s: State, t: Tid, r: Rid)
    requires Inv(s) && t in s.thr && r in s.mrec
    ensures Local2(s, t, r)
  {
  }

  /** The program counters from which `mutex_lock` can complete. */
  predicate Locking(pc: Pc, r: Rid, k: Cont) {
    || (pc.MutexRecord? && pc.r == r && pc.req == ReqLock(k))
    || pc == Woken(r, k)
  }

  /** The record `mutex_lock` leaves when it returns 0. */
  predicate Acquired(t: Tid, m0: MutexRec, m: MutexRec) {
    && m.locked && m.owner == Some(t) && m.kind == m0.kind && m.handle == m0.handle
    && if m0.owner == Some(t) then m.depth == m0.depth + 1 <= DEPTH_MAX && m.kind == Recursive
       else m0.owner.None? && m.depth == 1
  }

  lemma AcquireMovable(s: State, t: Tid, r: Rid, k: Cont, m: MutexRec)
    requires Local2(s, t, r) && Locking(s.thr[t], r, k) && LiveMutex(s, r) && Acquired(t, s.mrec[r], m)
    ensures Movable(s, Put(s, t, r, m, LockEvents(t, r, k), LockReturns(r, k)), t, LockReturns(r, k))
  {
  }

  lemma AcquireBalance(s: State, t: Tid, r: Rid, k: Cont, m: MutexRec)
    requires t in s.thr && r in s.mrec && Balance(s.log, t, r) == Believed(s, t, r) && WaitOk(s, t, s.thr[t])
    requires Locking(s.thr[t], r, k) && Acquired(t, s.mrec[r], m)
    ensures Balance(s.log + LockEvents(t, r, k), t, r) == (if Restoring(LockReturns(r, k), r) then 0 else m.depth)
  {
    var evs := LockEvents(t, r, k);
    if evs == [] { assert s.log + evs == s.log; } else { BalanceAppend(s.log, evs[0], t, r); }
  }

  lemma AcquirePuttable(s: State, t: Tid, r: Rid, k: Cont, m: MutexRec)
    requires t in s.thr && r in s.mrec && Locking(s.thr[t], r, k) && LiveMutex(s, r) && Acquired(t, s.mrec[r], m)
    requires s.mrec[r].locked == s.mrec[r].owner.Some?
    requires Balance(s.log + LockEvents(t, r, k), t, r) == (if Restoring(LockReturns(r, k), r) then 0 else m.depth)
    requires m.waiters + (if s.thr[t].Woken? then 1 else 0) == s.mrec[r].waiters
    ensures Puttable(s, t, r, m, LockEvents(t, r, k), LockReturns(r, k))
  {
  }

  lemma AcquirePreserves(s: State, t: Tid, r: Rid, k: Cont, m: MutexRec)
    requires Inv(s) && t in s.thr && r in s.mrec && Locking(s.thr[t], r, k) && LiveMutex(s, r)
             && Acquired(t, s.mrec[r], m)
    requires m.waiters + (if s.thr[t].Woken? then 1 else 0) == s.mrec[r].waiters
    ensures Inv(Put(s, t, r, m, LockEvents(t, r, k), LockReturns(r, k)))
  {
    Localise2(s, t, r);
    AcquireMovable(s, t, r, k, m);
    AcquireBalance(s, t, r, k, m);
    AcquirePuttable(s, t, r, k, m);
    PutKeepsInv(s, t, r, m, LockEvents(t, r, k), LockReturns(r, k));
  }

  lemma SleepAllowed(s: State, t: Tid, r: Rid, k: Cont)
    requires Local2(s, t, r) && s.thr[t].MutexRecord? && s.thr[t].r == r && s.thr[t].req == ReqLock(k)
             && s.mrec[r].locked
    ensures var m := s.mrec[r].(waiters := s.mrec[r].waiters + 1);
      Puttable(s, t, r, m, [], Asleep(r, k)) && Movable(s, Put(s, t, r, m, [], Asleep(r, k)), t, Asleep(r, k))
  {
    assert s.log + [] == s.log;
  }

  lemma RefusedMovable(s: State, t: Tid, r: Rid, k: Cont, code: int)
    requires Local(s, t) && Locking(s.thr[t], r, k) && s.thr[t].MutexRecord?
    ensures Movable1(s, t, LockFails(k, code))
  {
  }

  lemma RefusedPreserves(s: State, t: Tid, r: Rid, k: Cont, code: int)
    requires Inv(s) && t in s.thr && Locking(s.thr[t], r, k) && s.thr[t].MutexRecord?
    ensures Inv(At(s, t, LockFails(k, code)))
  {
    Localise(s, t);
    RefusedMovable(s, t, r, k, code);
    Move(s, t, LockFails(k, code));
  }

  lemma SleepPreserves(s: State, t: Tid, r: Rid, k: Cont)
    requires Inv(s) && t in s.thr && r in s.mrec && Locking(s.thr[t], r, k) && s.thr[t].MutexRecord? && s.mrec[r].locked
    ensures Inv(Put(s, t, r, s.mrec[r].(waiters := s.mrec[r].waiters + 1), [], Asleep(r, k)))
  {
    Localise2(s, t, r);
    SleepAllowed(s, t, r, k);
    PutKeepsInv(s, t, r, s.mrec[r].(waiters := s.mrec[r].waiters + 1), [], Asleep(r, k));
  }

  lemma LockShape(s: State, t: Tid, r: Rid, k: Cont)
    requires Local2(s, t, r) && Locking(s.thr[t], r, k) && s.thr[t].MutexRecord?
    ensures var m, s' := s.mrec[r], LockStep(s, t, r, k);
      || (m.locked && s' == Put(s, t, r, m.(waiters := m.waiters + 1), [], Asleep(r, k)))
      || (exists code :: s' == At(s, t, LockFails(k, code)))
      || (exists m' :: Acquired(t, m, m') && m'.waiters == m.waiters
                       && s' == Put(s, t, r, m', LockEvents(t, r, k), LockReturns(r, k)))
  {
    var m := s.mrec[r];
    assert s.log + [] == s.log;
    if m.locked && m.owner == Some(t) && m.kind == Recursive && m.depth < DEPTH_MAX {
      assert Acquired(t, m, m.(depth := m.depth + 1));
    } else if m.locked && m.owner == Some(t) && m.kind != Normal {
      assert LockStep(s, t, r, k) == At(s, t, LockFails(k, if m.kind == Recursive then EAGAIN else EDEADLK));
    } else if !m.locked {
      assert Acquired(t, m, m.(locked := true, owner := Some(t), depth := 1));
    }
  }

  lemma LockPreserves(s: State, t: Tid, r: Rid, k: Cont)
    requires Inv(s) && t in s.thr && r in s.mrec && Locking(s.thr[t], r, k) && s.thr[t].MutexRecord?
    ensures Inv(LockStep(s, t, r, k))
  {
    Localise2(s, t, r);
    LockShape(s, t, r, k);
    var m, s' := s.mrec[r], LockStep(s, t, r, k);
    if m.locked && s' == Put(s, t, r, m.(waiters := m.waiters + 1), [], Asleep(r, k)) {
      SleepPreserves(s, t, r, k);
    } else if code :| s' == At(s, t, LockFails(k, code)) {
      RefusedPreserves(s, t, r, k, code);
    } else {
      var m' :| Acquired(t, m, m') && m'.waiters == m.waiters
                && s' == Put(s, t, r, m', LockEvents(t, r, k), LockReturns(r, k));
      AcquirePreserves(s, t, r, k, m');
    }
  }

  lemma DozeMovable(s: State, t: Tid, r: Rid, k: Cont)
    requires Local2(s, t, r)
    requires s.thr[t] == Asleep(r, k) || (s.thr[t] == Woken(r, k) && s.mrec[r].locked)
    ensures Movable1(s, t, if s.thr[t].Asleep? then Woken(r, k) else Asleep(r, k))
  {
  }

  /** A sleeper wakes, or a woken waiter finds the mutex taken and sleeps again. */
  lemma DozePreserves(s: State, t: Tid, r: Rid, k: Cont)
    requires Inv(s) && t in s.thr && r in s.mrec
    requires s.thr[t] == Asleep(r, k) || (s.thr[t] == Woken(r, k) && s.mrec[r].locked)
    ensures Inv(At(s, t, if s.thr[t].Asleep? then Woken(r, k) else Asleep(r, k)))
  {
    Localise2(s, t, r);
    DozeMovable(s, t, r, k);
    Move(s, t, if s.thr[t].Asleep? then Woken(r, k) else Asleep(r, k));
  }

  lemma WokenPreserves(s: State, t: Tid, r: Rid, k: Cont)
    requires Inv(s) && t in s.thr && r in s.mrec && s.thr[t] == Woken(r, k) && s.mrec[r].waiters > 0
    ensures Inv(WokenStep(s, t, r, k))
  {
    if s.mrec[r].locked {
      DozePreserves(s, t, r, k);
    } else {
      Localise2(s, t, r);
      AcquirePreserves(s, t, r, k,
                       s.mrec[r].(locked := true, owner := Some(t), depth := 1, waiters := s.mrec[r].waiters - 1));
    }
  }

  /** Leaving a mutex record with a plain result. */
  lemma LeaveMovable(s: State, t: Tid, code: int)
    requires Local(s, t) && s.thr[t].MutexRecord? && !s.thr[t].req.ReqLock?
    ensures Movable1(s, t, Ret(Code(code)))
  {
  }

  lemma LeavePreserves(s: State, t: Tid, code: int)
    requires Inv(s) && t in s.thr && s.thr[t].MutexRecord? && !s.thr[t].req.ReqLock?
    ensures Inv(At(s, t, Ret(Code(code))))
  {
    Localise(s, t);
    LeaveMovable(s, t, code);
    Move(s, t, Ret(Code(code)));
  }

  lemma UnlockAllowed(s: State, t: Tid, r: Rid, m: MutexRec, pc': Pc)
    requires Local2(s, t, r) && s.thr[t].MutexRecord? && s.thr[t].r == r && s.thr[t].req.ReqUnlock?
    requires Relinquished(t, r, s.mrec[r], m, pc')
    ensures Puttable(s, t, r, m, [Unlocked(t, r)], pc') && Movable(s, Put(s, t, r, m, [Unlocked(t, r)], pc'), t, pc')
  {
    BalanceAppend(s.log, Unlocked(t, r), t, r);
  }

  predicate Relinquished(t: Tid, r: Rid, m: MutexRec, m': MutexRec, pc': Pc) {
    m.locked && m.owner == Some(t) &&
    if m.kind == Recursive && m.depth > 1
    then m' == m.(depth := m.depth - 1) && pc' == Ret(Code(0))
    else m' == FreeRecord(m) && pc' == UnlockNotify(r)
  }

  lemma UnlockShape(s: State, t: Tid, r: Rid)
    requires r in s.mrec
    ensures var s' := UnlockStep(s, t, r);
      || s' == At(s, t, Ret(Code(EPERM)))
      || exists m', pc' :: Relinquished(t, r, s.mrec[r], m', pc') && s' == Put(s, t, r, m', [Unlocked(t, r)], pc')
  {
    var m := s.mrec[r];
    if m.locked && m.owner == Some(t) {
      var again := m.kind == Recursive && m.depth > 1;
      assert Relinquished(t, r, m, if again then m.(depth := m.depth - 1) else FreeRecord(m),
                          if again then Ret(Code(0)) else UnlockNotify(r));
    }
  }

  lemma UnlockPreserves(s: State, t: Tid, r: Rid)
    requires Inv(s) && t in s.thr && r in s.mrec && s.thr[t].MutexRecord? && s.thr[t].r == r && s.thr[t].req.ReqUnlock?
    ensures Inv(UnlockStep(s, t, r))
  {
    UnlockShape(s, t, r);
    var s' := UnlockStep(s, t, r);
    if s' == At(s, t, Ret(Code(EPERM))) {
      LeavePreserves(s, t, EPERM);
    } else {
      var m', pc' :| Relinquished(t, r, s.mrec[r], m', pc') && s' == Put(s, t, r, m', [Unlocked(t, r)], pc');
      Localise2(s, t, r);
      UnlockAllowed(s, t, r, m', pc');
      PutKeepsInv(s, t, r, m', [Unlocked(t, r)], pc');
    }
  }

  // ---- Removing a mutex from its table ----------------------------------

  lemma DropMutexThreads(s: State, h: U64, mem: map<U64, U64>)
    requires Threads(s) && Waits(s) && Tables(s) && Queues(s)
    requires forall u :: u in s.thr ==> !s.thr[u].MutexRecord?
    ensures var s' := s.(mtab := s.mtab - {h}, mem := mem); Threads(s') && Waits(s') && Tables(s') && Queues(s')
  {
    var s' := s.(mtab := s.mtab - {h}, mem := mem);
    forall t | t in s'.thr ensures ThreadOk(s', t, s'.thr[t]) && WaitOk(s', t, s'.thr[t]) {
      assert ThreadOk(s, t, s.thr[t]) && WaitOk(s, t, s.thr[t]);
    }
    forall c, k | c in s'.crec && k in s'.crec[c].queue ensures QueuedOk(s', c, k) { assert QueuedOk(s, c, k); }
  }

  lemma DropMutexRecords(s: State, h: U64, mem: map<U64, U64>)
    requires Mutexes(s) && History(s) && Tables(s) && h in s.mtab
    requires !s.mrec[s.mtab[h]].locked && s.mrec[s.mtab[h]].waiters == 0
    ensures var s' := s.(mtab := s.mtab - {h}, mem := mem); Mutexes(s') && History(s')
  {
    var s' := s.(mtab := s.mtab - {h}, mem := mem);
    forall r | r in s'.mrec ensures RecordOk(s', r, s'.mrec[r]) { assert RecordOk(s, r, s.mrec[r]); }
    forall u, x ensures Balance(s'.log, u, x) == Believed(s', u, x) {
      assert Balance(s.log, u, x) == Believed(s, u, x);
    }
  }

  lemma DropMutexKeepsInv(s: State, h: U64, mem: map<U64, U64>)
    requires Inv(s) && h in s.mtab && !s.mrec[s.mtab[h]].locked && s.mrec[s.mtab[h]].waiters == 0
    requires forall u :: u in s.thr ==> !s.thr[u].MutexRecord?
    ensures Inv(s.(mtab := s.mtab - {h}, mem := mem))
  {
    DropMutexThreads(s, h, mem);
    DropMutexRecords(s, h, mem);
  }

  lemma AloneInTable(s: State, t: Tid)
    requires Exclusive(s) && t in s.thr && s.thr[t].MutexRecord?
    ensures forall u :: u in s.thr && u != t ==> !s.thr[u].MutexRecord?
  {
    forall u | u in s.thr && u != t ensures !s.thr[u].MutexRecord? {
      assert MutexTableLock in Held(s.thr[t]);
      assert s.thr[u].MutexRecord? ==> MutexTableLock in Held(s.thr[u]);
    }
  }

  lemma DestroyShape(s: State, t: Tid, slot: U64, h: U64, r: Rid)
    requires r in s.mrec
    ensures var s' := DestroyStep(s, t, slot, h, r);
      || s' == At(s, t, Ret(Code(EBUSY)))
      || (!s.mrec[r].locked && s.mrec[r].waiters == 0
          && exists code, mem :: s' == At(s, t, Ret(Code(code))).(mtab := s.mtab - {h}, mem := mem))
  {
    if !s.mrec[r].locked && s.mrec[r].waiters == 0 {
      var mem := if slot in s.wr then s.mem[slot := MUTEX_DESTROYED] else s.mem;
      assert DestroyStep(s, t, slot, h, r)
          == At(s, t, Ret(Code(if slot in s.wr then 0 else EINVAL))).(mtab := s.mtab - {h}, mem := mem);
    }
  }

  lemma DestroyPreserves(s: State, t: Tid, slot: U64, h: U64, r: Rid)
    requires Inv(s) && t in s.thr && r in s.mrec && s.thr[t] == MutexRecord(slot, h, r, ReqDestroy)
    ensures Inv(DestroyStep(s, t, slot, h, r))
  {
    DestroyShape(s, t, slot, h, r);
    var s' := DestroyStep(s, t, slot, h, r);
    if s' == At(s, t, Ret(Code(EBUSY))) {
      LeavePreserves(s, t, EBUSY);
    } else {
      var code, mem :| s' == At(s, t, Ret(Code(code))).(mtab := s.mtab - {h}, mem := mem);
      Localise(s, t);
      AloneInTable(s, t);
      LeavePreserves(s, t, code);
      DropMutexKeepsInv(At(s, t, Ret(Code(code))), h, mem);
    }
  }

  // ---- Notifying a mutex ------------------------------------------------

  predicate Notifier(pc: Pc, r: Rid) {
    (pc.UnlockNotify? && pc.r == r) || (pc.WaitNotify? && pc.w.m == r)
  }

  function Notified(pc: Pc): Pc {
    if pc.WaitNotify? then TokenCheck(pc.w, pc.timed) else Ret(Code(0))
  }

  lemma NotifyMovable(s: State, t: Tid, r: Rid)
    requires Local(s, t) && Notifier(s.thr[t], r) && Quiet(At(s, t, Notified(s.thr[t])), t, r)
    ensures Movable1(s, t, Notified(s.thr[t]))
  {
  }

  lemma NotifierPreserves(s: State, t: Tid, r: Rid)
    requires Inv(s) && t in s.thr && Notifier(s.thr[t], r) && Quiet(At(s, t, Notified(s.thr[t])), t, r)
    ensures Inv(At(s, t, Notified(s.thr[t])))
  {
    Localise(s, t);
    NotifyMovable(s, t, r);
    Move(s, t, Notified(s.thr[t]));
  }

  lemma NotifyPreserves(s: State, t: Tid, r: Rid, v: Option<Tid>)
    requires Inv(s) && t in s.thr && r in s.mrec && Notifier(s.thr[t], r) && PicksSleeper(s, r, v)
    ensures Inv(At(NotifyMutex(s, r, v), t, Notified(s.thr[t])))
  {
    if v.Some? {
      var k := s.thr[v.value].k;
      var mid := At(s, v.value, Woken(r, k));
      assert s.thr[v.value] == Asleep(r, k) && NotifyMutex(s, r, v) == mid && mid.thr[t] == s.thr[t];
      DozePreserves(s, v.value, r, k);
      assert Wakes(At(mid, t, Notified(s.thr[t])).thr[v.value], r);
      NotifierPreserves(mid, t, r);
    } else {
      NotifierPreserves(s, t, r);
    }
  }
}
