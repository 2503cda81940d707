/** The condition-variable steps keep the invariant. */
module SyncPreserveCond {
  import opened Base
  import opened Sync
  import opened SyncSteps
  import opened SyncProof
  import opened SyncPreserve

  // ---- Under the condition table ----------------------------------------

  lemma CondFailMovable(s: State, t: Tid, code: int)
    requires Local(s, t) && (s.thr[t].CondTable? || s.thr[t].CondRecord?) && !s.thr[t].creq.ReqExpire?
    ensures Movable1(s, t, Ret(Code(code)))
  {
  }

  lemma CondFoundMovable(s: State, t: Tid, slot: U64, h: U64, c: Cid, req: CondReq)
    requires Local(s, t) && s.thr[t] == CondTable(slot, req) && !req.ReqCondInit? && Free(s, t, CondTableLock)
    requires if req.ReqExpire? then c == req.w.c else h in s.ctab && s.ctab[h] == c
    ensures Movable1(s, t, CondRecord(slot, h, c, req))
  {
  }

  lemma CondFailPreserves(s: State, t: Tid, code: int)
    requires Inv(s) && t in s.thr && (s.thr[t].CondTable? || s.thr[t].CondRecord?) && !s.thr[t].creq.ReqExpire?
    ensures Inv(At(s, t, Ret(Code(code))))
  {
    Localise(s, t);
    CondFailMovable(s, t, code);
    Move(s, t, Ret(Code(code)));
  }

  lemma CondFoundPreserves(s: State, t: Tid, slot: U64, h: U64, c: Cid, req: CondReq)
    requires Inv(s) && Ready(s, t) && s.thr[t] == CondTable(slot, req) && !req.ReqCondInit?
    requires if req.ReqExpire? then c == req.w.c else h in s.ctab && s.ctab[h] == c
    ensures Inv(At(s, t, CondRecord(slot, h, c, req)))
  {
    Localise(s, t);
    CondFoundMovable(s, t, slot, h, c, req);
    Move(s, t, CondRecord(slot, h, c, req));
  }

  lemma CondTableShape(s: State, t: Tid, slot: U64, req: CondReq, c: Cid, h: U64)
    ensures var s' := CondTableStep(s, t, slot, req, c, h);
      || (exists code :: !req.ReqExpire? && s' == At(s, t, Ret(Code(code))))
      || (exists g, d :: !req.ReqCondInit? && (if req.ReqExpire? then d == req.w.c else g in s.ctab && s.ctab[g] == d)
                         && s' == At(s, t, CondRecord(slot, g, d, req)))
      || (!req.ReqExpire?
          && s' == At(AddCond(s, slot, c, h), t, if req.ReqCondInit? then Ret(Code(0))
                                                 else CondRecord(slot, h, c, req)))
  {
    var s' := CondTableStep(s, t, slot, req, c, h);
    match req
    case ReqCondInit => if slot !in s.wr { assert s' == At(s, t, Ret(Code(EINVAL))); }
    case ReqCondDestroy =>
      if slot !in s.mem { assert s' == At(s, t, Ret(Code(EINVAL))); }
      else if s.mem[slot] == 0 { assert s' == At(s, t, Ret(Code(0))); }
      else if s.mem[slot] == COND_DESTROYED || s.mem[slot] !in s.ctab { assert s' == At(s, t, Ret(Code(EINVAL))); }
    case ReqExpire(w) => assert s' == At(s, t, CondRecord(slot, 0, w.c, req));
    case _ =>
      match LookCond(s, slot)
      case Miss(code) => assert s' == At(s, t, Ret(Code(code)));
      case Hit(id) =>
      case Make(_) =>
  }

  lemma CondMadePreserves(s: State, t: Tid, slot: U64, req: CondReq, c: Cid, h: U64)
    requires Inv(s) && Ready(s, t) && s.thr[t] == CondTable(slot, req) && FreshCond(s, c, h) && !req.ReqExpire?
    ensures Inv(At(AddCond(s, slot, c, h), t, if req.ReqCondInit? then Ret(Code(0)) else CondRecord(slot, h, c, req)))
  {
    AddCondKeepsInv(s, slot, c, h);
    var mid := AddCond(s, slot, c, h);
    if req.ReqCondInit? { CondFailPreserves(mid, t, 0); } else { CondFoundPreserves(mid, t, slot, h, c, req); }
  }

  lemma CondTablePreserves(s: State, t: Tid, slot: U64, req: CondReq, c: Cid, h: U64)
    requires Inv(s) && Ready(s, t) && s.thr[t] == CondTable(slot, req) && FreshCond(s, c, h)
    ensures Inv(CondTableStep(s, t, slot, req, c, h))
  {
    CondTableShape(s, t, slot, req, c, h);
    var s' := CondTableStep(s, t, slot, req, c, h);
    if code :| !req.ReqExpire? && s' == At(s, t, Ret(Code(code))) {
      CondFailPreserves(s, t, code);
    } else if g, d :| !req.ReqCondInit? && (if req.ReqExpire? then d == req.w.c else g in s.ctab && s.ctab[g] == d)
                      && s' == At(s, t, CondRecord(slot, g, d, req)) {
      CondFoundPreserves(s, t, slot, g, d, req);
    } else {
      CondMadePreserves(s, t, slot, req, c, h);
    }
  }

  // ---- Under a condition record -----------------------------------------

  function Onward(q: seq<Kid>, c: Cid, req: CondReq): Pc {
    match req
    case ReqCondWait(m, slot, timed) => WaitMutex(c, m, slot, timed)
    case ReqSignal => if q == [] then Ret(Code(0)) else SignalToken(c, q[0])
    case ReqBroadcast => if q == [] then Ret(Code(0)) else BroadcastToken(c, q[0], [], q)
    case ReqExpire(w) => ExpireToken(w)
    case _ => Ret(Code(EBUSY))
  }

  lemma SignallerMovable(s: State, t: Tid, slot: U64, h: U64, c: Cid)
    requires Local(s, t) && c in s.crec && s.thr[t] == CondRecord(slot, h, c, ReqSignal) && Free(s, t, CondLock(c))
    ensures Movable1(s, t, Onward(s.crec[c].queue, c, ReqSignal))
  {
  }

  lemma BroadcasterMovable(s: State, t: Tid, slot: U64, h: U64, c: Cid)
    requires Local(s, t) && c in s.crec && s.thr[t] == CondRecord(slot, h, c, ReqBroadcast) && Free(s, t, CondLock(c))
    ensures Movable1(s, t, Onward(s.crec[c].queue, c, ReqBroadcast))
  {
    var q, pc' := s.crec[c].queue, Onward(s.crec[c].queue, c, ReqBroadcast);
    assert [] + q == q && AllSignaled(s, []);
    assert forall k :: !WakesToken(s.thr[t], k);
    assert ThreadOk(At(s, t, pc'), t, pc');
  }

  lemma OnwardMovable(s: State, t: Tid, slot: U64, h: U64, c: Cid, req: CondReq)
    requires Local(s, t) && c in s.crec && s.thr[t] == CondRecord(slot, h, c, req) && Free(s, t, CondLock(c))
    ensures Movable1(s, t, Onward(s.crec[c].queue, c, req))
  {
    if req.ReqSignal? { SignallerMovable(s, t, slot, h, c); }
    else if req.ReqBroadcast? { BroadcasterMovable(s, t, slot, h, c); }
  }

  lemma OnwardPreserves(s: State, t: Tid, slot: U64, h: U64, c: Cid, req: CondReq)
    requires Inv(s) && Ready(s, t) && c in s.crec && s.thr[t] == CondRecord(slot, h, c, req)
    ensures Inv(At(s, t, Onward(s.crec[c].queue, c, req)))
  {
    Localise(s, t);
    OnwardMovable(s, t, slot, h, c, req);
    Move(s, t, Onward(s.crec[c].queue, c, req));
  }

  lemma DropCondThreads(s: State, h: U64, mem: map<U64, U64>)
    requires Threads(s) && Waits(s) && Tables(s) && Queues(s) && h in s.ctab && s.crec[s.ctab[h]].queue == []
    requires forall u :: u in s.thr ==> CondTableLock !in Held(s.thr[u]) && CondLock(s.ctab[h]) !in Held(s.thr[u])
    ensures var s' := s.(ctab := s.ctab - {h}, mem := mem); Threads(s') && Waits(s') && Tables(s') && Queues(s')
  {
    var s' := s.(ctab := s.ctab - {h}, mem := mem);
    forall t | t in s'.thr ensures ThreadOk(s', t, s'.thr[t]) {
      assert ThreadOk(s, t, s.thr[t]);
    }
    forall t | t in s'.thr ensures WaitOk(s', t, s'.thr[t]) { assert WaitOk(s, t, s.thr[t]); }
    forall c, k | c in s'.crec && k in s'.crec[c].queue ensures QueuedOk(s', c, k) { assert QueuedOk(s, c, k); }
  }

  lemma DropCondKeepsInv(s: State, h: U64, mem: map<U64, U64>)
    requires Inv(s) && h in s.ctab && s.crec[s.ctab[h]].queue == []
    requires forall u :: u in s.thr ==> CondTableLock !in Held(s.thr[u]) && CondLock(s.ctab[h]) !in Held(s.thr[u])
    ensures Inv(s.(ctab := s.ctab - {h}, mem := mem))
  {
    DropCondThreads(s, h, mem);
    SameMutexes(s, s.(ctab := s.ctab - {h}, mem := mem));
  }

  lemma AloneInCond(s: State, t: Tid, c: Cid, code: int)
    requires Exclusive(s) && t in s.thr && s.thr[t].CondRecord? && Free(s, t, CondLock(c))
    ensures var s' := At(s, t, Ret(Code(code)));
      forall u :: u in s'.thr ==> CondTableLock !in Held(s'.thr[u]) && CondLock(c) !in Held(s'.thr[u])
  {
    assert CondTableLock in Held(s.thr[t]);
  }

  lemma CondDestroyPreserves(s: State, t: Tid, slot: U64, h: U64, c: Cid, mem: map<U64, U64>)
    requires Inv(s) && Ready(s, t) && c in s.crec && s.thr[t] == CondRecord(slot, h, c, ReqCondDestroy)
             && s.crec[c].queue == []
    ensures Inv(At(s, t, Ret(Code(0))).(ctab := s.ctab - {h}, mem := mem))
  {
    Localise(s, t);
    AloneInCond(s, t, c, 0);
    CondFailPreserves(s, t, 0);
    DropCondKeepsInv(At(s, t, Ret(Code(0))), h, mem);
  }

  lemma CondRecordShape(s: State, t: Tid, slot: U64, h: U64, c: Cid, req: CondReq)
    requires c in s.crec && !req.ReqCondInit?
    ensures var s' := CondRecordStep(s, t, slot, h, c, req);
      || s' == At(s, t, Onward(s.crec[c].queue, c, req))
      || (req.ReqCondDestroy? && s' == At(s, t, Ret(Code(EINVAL))))
      || (req.ReqCondDestroy? && s.crec[c].queue == []
          && s' == At(s, t, Ret(Code(0))).(ctab := s.ctab - {h}, mem := s.mem[slot := COND_DESTROYED]))
  {
  }

  lemma CondRecordPreserves(s: State, t: Tid, slot: U64, h: U64, c: Cid, req: CondReq)
    requires Inv(s) && Ready(s, t) && c in s.crec && s.thr[t] == CondRecord(slot, h, c, req)
    ensures Inv(CondRecordStep(s, t, slot, h, c, req))
  {
    Localise(s, t);
    CondRecordShape(s, t, slot, h, c, req);
    var s' := CondRecordStep(s, t, slot, h, c, req);
    if s' == At(s, t, Onward(s.crec[c].queue, c, req)) {
      OnwardPreserves(s, t, slot, h, c, req);
    } else if s' == At(s, t, Ret(Code(EINVAL))) {
      CondFailPreserves(s, t, EINVAL);
    } else {
      CondDestroyPreserves(s, t, slot, h, c, s.mem[slot := COND_DESTROYED]);
    }
  }

  // ---- Token moves ------------------------------------------------------

  function Looks(s: State, w: Wait, timed: bool, expired: bool): Pc {
    if w.k in s.tok && s.tok[w.k].signaled then Rejoin(w, false)
    else if expired then CondTable(0, ReqExpire(w))
    else TokenAsleep(w, timed)
  }

  predicate Looking(pc: Pc, w: Wait, timed: bool, expired: bool) {
    (pc == TokenCheck(w, timed) && !expired) || pc == TokenWoken(w, timed, expired)
  }

  lemma LookMovable(s: State, t: Tid, w: Wait, timed: bool, expired: bool)
    requires Local(s, t) && Looking(s.thr[t], w, timed, expired)
    ensures Movable1(s, t, Looks(s, w, timed, expired))
  {
  }

  lemma TokenPreserves(s: State, t: Tid, w: Wait, timed: bool, expired: bool)
    requires Inv(s) && t in s.thr && w.k in s.tok && Looking(s.thr[t], w, timed, expired)
    ensures Inv(TokenStep(s, t, w, timed, expired))
  {
    Localise(s, t);
    LookMovable(s, t, w, timed, expired);
    assert TokenStep(s, t, w, timed, expired) == At(s, t, Looks(s, w, timed, expired));
    Move(s, t, Looks(s, w, timed, expired));
  }

  lemma TokenWakes(s: State, t: Tid, w: Wait, timed: bool, expired: bool)
    requires Inv(s) && t in s.thr && s.thr[t] == TokenAsleep(w, timed)
    ensures Inv(At(s, t, TokenWoken(w, timed, expired)))
  {
    Localise(s, t);
    TokenWakeMovable(s, t, w, timed, expired);
    Move(s, t, TokenWoken(w, timed, expired));
  }

  lemma TokenWakeMovable(s: State, t: Tid, w: Wait, timed: bool, expired: bool)
    requires Local(s, t) && s.thr[t] == TokenAsleep(w, timed)
    ensures Movable1(s, t, TokenWoken(w, timed, expired))
  {
  }

  function Announced(pending: seq<Kid>): Pc
    requires pending != []
  {
    if |pending| == 1 then Ret(Code(0)) else NotifyTokens(pending[1..])
  }

  lemma AnnounceMovable(s: State, t: Tid, pending: seq<Kid>)
    requires Local(s, t) && s.thr[t] == NotifyTokens(pending) && pending != []
             && QuietToken(At(s, t, Announced(pending)), pending[0])
    ensures Movable1(s, t, Announced(pending))
  {
    forall k | WakesToken(s.thr[t], k) && !WakesToken(Announced(pending), k) ensures k == pending[0] {
      assert pending == [pending[0]] + pending[1..];
    }
  }

  lemma AnnouncePreserves(s: State, t: Tid, pending: seq<Kid>)
    requires Inv(s) && t in s.thr && s.thr[t] == NotifyTokens(pending) && pending != []
             && QuietToken(At(s, t, Announced(pending)), pending[0])
    ensures Inv(At(s, t, Announced(pending)))
  {
    Localise(s, t);
    AnnounceMovable(s, t, pending);
    Move(s, t, Announced(pending));
  }

  /** After `notify_one` on `k` nobody sleeps on it: only the owner could. */
  lemma OwnerAwake(s: State, t: Tid, pending: seq<Kid>)
    requires Waits(s) && t in s.thr && s.thr[t] == NotifyTokens(pending) && pending != []
    ensures QuietToken(At(NotifyToken(s, pending[0]), t, Announced(pending)), pending[0])
  {
    var k, s' := pending[0], At(NotifyToken(s, pending[0]), t, Announced(pending));
    forall v | v in s'.thr && s'.thr[v].TokenAsleep? ensures s'.thr[v].w.k != k {
      assert WaitOk(s, v, s.thr[v]);
    }
  }

  lemma NotifyTokensPreserves(s: State, t: Tid, pending: seq<Kid>)
    requires Inv(s) && t in s.thr && s.thr[t] == NotifyTokens(pending) && pending != []
    ensures Inv(NotifyTokensStep(s, t, pending))
  {
    OwnerAwake(s, t, pending);
    var k, mid := pending[0], NotifyToken(s, pending[0]);
    if mid != s {
      var o := s.tok[k].owner;
      TokenWakes(s, o, s.thr[o].w, s.thr[o].timed, false);
    }
    AnnouncePreserves(mid, t, pending);
  }

  // ---- Steps that change a queue ----------------------------------------

  /** Only queue `c` and tokens change; tokens are added or become signalled. */
  ghost predicate QueueFrame(s: State, s': State, c: Cid) {
    && s'.mtab == s.mtab && s'.ctab == s.ctab && c in s.crec && s'.crec.Keys == s.crec.Keys
    && s'.crec[c].handle == s.crec[c].handle && (forall x :: x in s.crec && x != c ==> s'.crec[x] == s.crec[x])
    && (forall k :: k in s.tok ==> k in s'.tok && s'.tok[k].owner == s.tok[k].owner && s'.tok[k].cond == s.tok[k].cond
                                   && (s.tok[k].signaled ==> s'.tok[k].signaled))
  }

  lemma QueueThread(s: State, s': State, c: Cid, u: Tid, pc: Pc)
    requires QueueFrame(s, s', c) && s'.mrec == s.mrec && ThreadOk(s, u, pc) && CondLock(c) !in Held(pc)
    ensures ThreadOk(s', u, pc)
  {
  }

  lemma QueueThreads(s: State, s': State, t: Tid, c: Cid, pc': Pc)
    requires Threads(s) && Exclusive(s) && QueueFrame(s, s', c) && s'.mrec == s.mrec
    requires t in s.thr && s'.thr == s.thr[t := pc'] && CondLock(c) in Held(s.thr[t]) && ThreadOk(s', t, pc')
    ensures Threads(s')
  {
    forall u | u in s'.thr ensures ThreadOk(s', u, s'.thr[u]) {
      if u != t { QueueThread(s, s', c, u, s.thr[u]); }
    }
  }

  // ---- Enqueue and release ----------------------------------------------

  lemma RefuseWaitMovable(s: State, t: Tid)
    requires Local(s, t) && s.thr[t].WaitMutex?
    ensures Movable1(s, t, Ret(Code(EPERM)))
  {
  }

  function Enqueue(s: State, t: Tid, c: Cid, k: Kid): State
    requires c in s.crec
  {
    s.(crec := s.crec[c := s.crec[c].(queue := s.crec[c].queue + [k])], tok := s.tok[k := Token(false, t, c)])
  }

  function Waiting(s: State, c: Cid, m: Rid, slot: U64, k: Kid): Wait
    requires m in s.mrec
  {
    Wait(c, m, slot, s.mrec[m].depth, k, false)
  }

  function Release(s: State, t: Tid, m: Rid, pc': Pc): State
    requires m in s.mrec
  {
    Put(s, t, m, FreeRecord(s.mrec[m]), [Released(t, m)], pc')
  }

  /** `t` is about to enqueue on `c` and release `m`. */
  ghost predicate Enqueuing(s: State, t: Tid, c: Cid, m: Rid, slot: U64, timed: bool, k: Kid) {
    && t in s.thr && s.thr[t] == WaitMutex(c, m, slot, timed) && k !in s.tok && LiveCond(s, c)
    && m in s.mrec && s.mrec[m].locked && s.mrec[m].owner == Some(t)
  }

  lemma EnqueueThreads(s: State, t: Tid, c: Cid, m: Rid, slot: U64, timed: bool, k: Kid)
    requires Threads(s) && Exclusive(s) && Enqueuing(s, t, c, m, slot, timed, k)
    ensures Threads(Release(Enqueue(s, t, c, k), t, m, WaitNotify(Waiting(s, c, m, slot, k), timed)))
  {
    var mid := Enqueue(s, t, c, k);
    var s' := Release(mid, t, m, WaitNotify(Waiting(s, c, m, slot, k), timed));
    assert CondLock(c) in Held(s.thr[t]);
    assert QueueFrame(s, mid, c) && Grows(mid, s', t);
    forall u | u in s'.thr ensures ThreadOk(s', u, s'.thr[u]) {
      if u != t {
        QueueThread(s, mid, c, u, s.thr[u]);
        KeepThread(mid, s', t, u, s.thr[u]);
      }
    }
  }

  lemma EnqueueWaits(s: State, t: Tid, c: Cid, m: Rid, slot: U64, timed: bool, k: Kid)
    requires Waits(s) && Enqueuing(s, t, c, m, slot, timed, k) && RecordOk(s, m, s.mrec[m])
    ensures Waits(Release(Enqueue(s, t, c, k), t, m, WaitNotify(Waiting(s, c, m, slot, k), timed)))
  {
    var mid := Enqueue(s, t, c, k);
    var s' := Release(mid, t, m, WaitNotify(Waiting(s, c, m, slot, k), timed));
    forall u | u in s'.thr ensures WaitOk(s', u, s'.thr[u]) {
      if u == t {
        assert mid.crec[c].queue[|s.crec[c].queue|] == k;
      } else {
        assert WaitOk(s, u, s.thr[u]);
      }
    }
  }

  lemma EnqueueQueues(s: State, t: Tid, c: Cid, m: Rid, slot: U64, timed: bool, k: Kid)
    requires Queues(s) && Enqueuing(s, t, c, m, slot, timed, k)
    ensures Queues(Release(Enqueue(s, t, c, k), t, m, WaitNotify(Waiting(s, c, m, slot, k), timed)))
  {
    var s' := Release(Enqueue(s, t, c, k), t, m, WaitNotify(Waiting(s, c, m, slot, k), timed));
    forall d, x | d in s'.crec && x in s'.crec[d].queue ensures QueuedOk(s', d, x) {
      if x != k { assert QueuedOk(s, d, x); }
    }
    assert forall x :: x in s.crec[c].queue ==> QueuedOk(s, c, x);
    assert k !in s.crec[c].queue;
  }

  lemma EnqueueWakeups(s: State, t: Tid, c: Cid, m: Rid, slot: U64, timed: bool, k: Kid)
    requires NoLostWakeup(s) && NoLostToken(s) && Exclusive(s) && Enqueuing(s, t, c, m, slot, timed, k)
    ensures var s' := Release(Enqueue(s, t, c, k), t, m, WaitNotify(Waiting(s, c, m, slot, k), timed));
      NoLostWakeup(s') && NoLostToken(s') && Exclusive(s')
  {
    var pc' := WaitNotify(Waiting(s, c, m, slot, k), timed);
    var s' := Release(Enqueue(s, t, c, k), t, m, pc');
    KeepExclusive(s, t, pc', s');
    KeepWakeup(s, s', t, pc');
    KeepToken(s, s', t, pc');
  }

  lemma EnqueueRecords(s: State, t: Tid, c: Cid, m: Rid, slot: U64, timed: bool, k: Kid)
    requires Mutexes(s) && History(s) && Enqueuing(s, t, c, m, slot, timed, k)
    ensures var s' := Release(Enqueue(s, t, c, k), t, m, WaitNotify(Waiting(s, c, m, slot, k), timed));
      Mutexes(s') && History(s')
  {
    var mid, pc' := Enqueue(s, t, c, k), WaitNotify(Waiting(s, c, m, slot, k), timed);
    SameMutexes(s, mid);
    BalanceAppend(s.log, Released(t, m), t, m);
    assert RecordOk(mid, m, mid.mrec[m]);
    PutRecords(mid, t, m, FreeRecord(s.mrec[m]), [Released(t, m)], pc');
    PutHistory(mid, t, m, FreeRecord(s.mrec[m]), [Released(t, m)], pc');
  }

  lemma WaitMutexPreserves(s: State, t: Tid, c: Cid, m: Rid, slot: U64, timed: bool, k: Kid)
    requires Inv(s) && t in s.thr && s.thr[t] == WaitMutex(c, m, slot, timed) && k !in s.tok && c in s.crec
             && m in s.mrec
    ensures Inv(WaitMutexStep(s, t, c, m, slot, timed, k))
  {
    Localise2(s, t, m);
    if s.mrec[m].locked && s.mrec[m].owner == Some(t) {
      EnqueueThreads(s, t, c, m, slot, timed, k);
      EnqueueWaits(s, t, c, m, slot, timed, k);
      EnqueueQueues(s, t, c, m, slot, timed, k);
      EnqueueWakeups(s, t, c, m, slot, timed, k);
      EnqueueRecords(s, t, c, m, slot, timed, k);
      EnqueueTables(s, t, c, m, slot, timed, k);
    } else {
      RefuseWaitMovable(s, t);
      Move(s, t, Ret(Code(EPERM)));
    }
  }

  lemma EnqueueTables(s: State, t: Tid, c: Cid, m: Rid, slot: U64, timed: bool, k: Kid)
    requires Tables(s) && Enqueuing(s, t, c, m, slot, timed, k)
    ensures var s' := Release(Enqueue(s, t, c, k), t, m, WaitNotify(Waiting(s, c, m, slot, k), timed));
      Tables(s') && WaitMutexStep(s, t, c, m, slot, timed, k) == s'
  {
  }

  // ---- Marking a token --------------------------------------------------

  /** `t` holds record `c` and marks the front token `k`, then moves to `pc'`. */
  ghost predicate Marking(s: State, t: Tid, c: Cid, k: Kid, pc': Pc) {
    && t in s.thr && CondLock(c) in Held(s.thr[t]) && WaitOf(s.thr[t]).None? && c in s.crec && LiveCond(s, c)
    && s.crec[c].queue != [] && s.crec[c].queue[0] == k && k in s.tok
    && (forall r :: !WaitsOn(s.thr[t], r) && !Wakes(s.thr[t], r) && !Restoring(s.thr[t], r))
    && (pc'.NotifyTokens? || pc'.BroadcastToken?) && (forall l :: l in Held(pc') ==> l == CondLock(c))
    && WakesToken(pc', k) && (forall x :: WakesToken(s.thr[t], x) ==> WakesToken(pc', x))
    && ThreadOk(At(Mark(s, c, k), t, pc'), t, pc')
  }

  lemma MarkWaits(s: State, t: Tid, c: Cid, k: Kid, pc': Pc)
    requires Waits(s) && Queues(s) && Marking(s, t, c, k, pc')
    ensures Waits(At(Mark(s, c, k), t, pc'))
  {
    var s', q := At(Mark(s, c, k), t, pc'), s.crec[c].queue;
    assert QueuedOk(s, c, k) by { assert q[0] in q; }
    assert q == [q[0]] + q[1..] && q[0] !in q[1..];
    forall u | u in s'.thr ensures WaitOk(s', u, s'.thr[u]) {
      if u != t { assert WaitOk(s, u, s.thr[u]); }
    }
  }

  lemma MarkQueues(s: State, t: Tid, c: Cid, k: Kid, pc': Pc)
    requires Queues(s) && Marking(s, t, c, k, pc')
    ensures Queues(At(Mark(s, c, k), t, pc'))
  {
    var s', q := At(Mark(s, c, k), t, pc'), s.crec[c].queue;
    assert QueuedOk(s, c, k) by { assert q[0] in q; }
    assert q[0] !in q[1..];
    forall d, x | d in s'.crec && x in s'.crec[d].queue ensures QueuedOk(s', d, x) {
      assert QueuedOk(s, d, x);
    }
  }

  lemma MarkWakeups(s: State, t: Tid, c: Cid, k: Kid, pc': Pc)
    requires NoLostWakeup(s) && NoLostToken(s) && Exclusive(s) && Marking(s, t, c, k, pc')
    ensures var s' := At(Mark(s, c, k), t, pc'); NoLostWakeup(s') && NoLostToken(s') && Exclusive(s')
  {
    var s' := At(Mark(s, c, k), t, pc');
    KeepExclusive(s, t, pc', s');
    KeepWakeup(s, s', t, pc');
    KeepToken(s, s', t, pc');
  }

  lemma MarkRecords(s: State, t: Tid, c: Cid, k: Kid, pc': Pc)
    requires Mutexes(s) && History(s) && Tables(s) && Marking(s, t, c, k, pc')
    ensures var s' := At(Mark(s, c, k), t, pc'); Mutexes(s') && History(s') && Tables(s')
  {
    SameMutexes(s, Mark(s, c, k));
    MoveRecords(Mark(s, c, k), t, pc');
  }

  lemma MarkThreads(s: State, t: Tid, c: Cid, k: Kid, pc': Pc)
    requires Threads(s) && Exclusive(s) && Marking(s, t, c, k, pc')
    ensures Threads(At(Mark(s, c, k), t, pc'))
  {
    QueueThreads(s, At(Mark(s, c, k), t, pc'), t, c, pc');
  }

  lemma MarkPreserves(s: State, t: Tid, c: Cid, k: Kid, pc': Pc)
    requires Inv(s) && Marking(s, t, c, k, pc')
    ensures Inv(At(Mark(s, c, k), t, pc'))
  {
    MarkThreads(s, t, c, k, pc');
    MarkWaits(s, t, c, k, pc');
    MarkQueues(s, t, c, k, pc');
    MarkWakeups(s, t, c, k, pc');
    MarkRecords(s, t, c, k, pc');
  }

  lemma SignalMarks(s: State, t: Tid, c: Cid, k: Kid)
    requires Local(s, t) && s.thr[t] == SignalToken(c, k) && k in s.tok
    ensures Marking(s, t, c, k, NotifyTokens([k]))
  {
  }

  lemma BroadcastMarks(s: State, t: Tid, c: Cid, k: Kid, marked: seq<Kid>, all: seq<Kid>)
    requires Local(s, t) && s.thr[t] == BroadcastToken(c, k, marked, all) && k in s.tok
    ensures Marking(s, t, c, k, BroadcastStep(s, t, c, k, marked, all).thr[t])
  {
    var q := s.crec[c].queue;
    assert marked + q == marked + [k] + q[1..];
    assert k in marked + [k];
  }

  lemma SignalPreserves(s: State, t: Tid, c: Cid, k: Kid)
    requires Inv(s) && t in s.thr && s.thr[t] == SignalToken(c, k) && c in s.crec && s.crec[c].queue != [] && k in s.tok
    ensures Inv(SignalStep(s, t, c, k))
  {
    Localise(s, t);
    SignalMarks(s, t, c, k);
    MarkPreserves(s, t, c, k, NotifyTokens([k]));
  }

  lemma BroadcastPreserves(s: State, t: Tid, c: Cid, k: Kid, marked: seq<Kid>, all: seq<Kid>)
    requires Inv(s) && t in s.thr && s.thr[t] == BroadcastToken(c, k, marked, all) && c in s.crec
             && s.crec[c].queue != [] && k in s.tok
    ensures Inv(BroadcastStep(s, t, c, k, marked, all))
  {
    Localise(s, t);
    BroadcastMarks(s, t, c, k, marked, all);
    MarkPreserves(s, t, c, k, BroadcastStep(s, t, c, k, marked, all).thr[t]);
  }

  // ---- Timing out -------------------------------------------------------

  lemma {:induction false} WithoutExact(q: seq<Kid>, k: Kid)
    requires NoDup(q)
    ensures NoDup(Without(q, k)) && k !in Without(q, k)
    ensures forall x :: x != k ==> (x in Without(q, k) <==> x in q)
  {
    if q != [] {
      assert q == [q[0]] + q[1..] && q[0] !in q[1..];
      WithoutExact(q[1..], k);
    }
  }

  function Dequeue(s: State, c: Cid, k: Kid): State
    requires c in s.crec
  {
    s.(crec := s.crec[c := s.crec[c].(queue := Without(s.crec[c].queue, k))])
  }

  /** `t` holds the condition record and its unsignalled token. */
  ghost predicate Expiring(s: State, t: Tid, w: Wait) {
    Local(s, t) && s.thr[t] == ExpireToken(w) && w.c in s.crec && w.k in s.tok && !s.tok[w.k].signaled
  }

  lemma ExpireWaits(s: State, t: Tid, w: Wait)
    requires Waits(s) && Queues(s) && Expiring(s, t, w)
    ensures Waits(At(Dequeue(s, w.c, w.k), t, Rejoin(w, true)))
  {
    var s' := At(Dequeue(s, w.c, w.k), t, Rejoin(w, true));
    WithoutExact(s.crec[w.c].queue, w.k);
    forall u | u in s'.thr ensures WaitOk(s', u, s'.thr[u]) { assert WaitOk(s, u, s.thr[u]); }
  }

  lemma ExpireQueues(s: State, t: Tid, w: Wait)
    requires Queues(s) && Expiring(s, t, w)
    ensures Queues(At(Dequeue(s, w.c, w.k), t, Rejoin(w, true)))
  {
    var s' := At(Dequeue(s, w.c, w.k), t, Rejoin(w, true));
    WithoutExact(s.crec[w.c].queue, w.k);
    forall d, x | d in s'.crec && x in s'.crec[d].queue ensures QueuedOk(s', d, x) { assert QueuedOk(s, d, x); }
    if s'.crec[w.c].queue != [] { assert s'.crec[w.c].queue[0] in s.crec[w.c].queue; }
  }

  lemma ExpireWakeups(s: State, t: Tid, w: Wait)
    requires NoLostWakeup(s) && NoLostToken(s) && Exclusive(s) && Expiring(s, t, w)
    ensures var s' := At(Dequeue(s, w.c, w.k), t, Rejoin(w, true)); NoLostWakeup(s') && NoLostToken(s') && Exclusive(s')
  {
    var s' := At(Dequeue(s, w.c, w.k), t, Rejoin(w, true));
    KeepExclusive(s, t, Rejoin(w, true), s');
    KeepWakeup(s, s', t, Rejoin(w, true));
    KeepToken(s, s', t, Rejoin(w, true));
  }

  lemma ExpireRecords(s: State, t: Tid, w: Wait)
    requires Mutexes(s) && History(s) && Expiring(s, t, w)
    ensures var s' := At(Dequeue(s, w.c, w.k), t, Rejoin(w, true)); Mutexes(s') && History(s') && Tables(s')
  {
    SameMutexes(s, Dequeue(s, w.c, w.k));
    MoveRecords(Dequeue(s, w.c, w.k), t, Rejoin(w, true));
  }

  lemma ExpireThreads(s: State, t: Tid, w: Wait)
    requires Threads(s) && Exclusive(s) && Expiring(s, t, w)
    ensures Threads(At(Dequeue(s, w.c, w.k), t, Rejoin(w, true)))
  {
    QueueThreads(s, At(Dequeue(s, w.c, w.k), t, Rejoin(w, true)), t, w.c, Rejoin(w, true));
  }

  lemma SavedMovable(s: State, t: Tid, w: Wait)
    requires Local(s, t) && s.thr[t] == ExpireToken(w) && w.k in s.tok && s.tok[w.k].signaled
    ensures Movable1(s, t, Rejoin(w, false))
  {
  }

  lemma ExpirePreserves(s: State, t: Tid, w: Wait)
    requires Inv(s) && t in s.thr && s.thr[t] == ExpireToken(w) && w.k in s.tok && w.c in s.crec
    ensures Inv(ExpireStep(s, t, w))
  {
    Localise(s, t);
    if s.tok[w.k].signaled {
      SavedMovable(s, t, w);
      Move(s, t, Rejoin(w, false));
    } else {
      ExpireThreads(s, t, w);
      ExpireWaits(s, t, w);
      ExpireQueues(s, t, w);
      ExpireWakeups(s, t, w);
      ExpireRecords(s, t, w);
    }
  }

  // ---- Giving the depth back --------------------------------------------

  function Completed(w: Wait, got: Rid): Pc {
    Ret(WaitDone(w, got, WaitCode(w)))
  }

  lemma RestoreAllowed(s: State, t: Tid, w: Wait)
    requires Local2(s, t, w.m) && s.thr[t] == Restore(w, w.m) && s.mrec[w.m].kind == Recursive
    ensures var m := s.mrec[w.m].(depth := w.d);
      && Puttable(s, t, w.m, m, [Restored(t, w.m, w.d)], Completed(w, w.m))
      && Movable(s, Put(s, t, w.m, m, [Restored(t, w.m, w.d)], Completed(w, w.m)), t, Completed(w, w.m))
  {
    BalanceAppend(s.log, Restored(t, w.m, w.d), t, w.m);
  }

  lemma ElsewhereMovable(s: State, t: Tid, w: Wait, got: Rid)
    requires Local(s, t) && s.thr[t] == Restore(w, got) && got != w.m
    ensures Movable1(s, t, Completed(w, got))
  {
  }

  lemma RestorePreserves(s: State, t: Tid, w: Wait, got: Rid)
    requires Inv(s) && t in s.thr && s.thr[t] == Restore(w, got) && w.m in s.mrec
    ensures Inv(RestoreStep(s, t, w, got))
  {
    Localise2(s, t, w.m);
    if got == w.m {
      RestoreAllowed(s, t, w);
      PutKeepsInv(s, t, w.m, s.mrec[w.m].(depth := w.d), [Restored(t, w.m, w.d)], Completed(w, w.m));
    } else {
      ElsewhereMovable(s, t, w, got);
      Move(s, t, Completed(w, got));
    }
  }
}
