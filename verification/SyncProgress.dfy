/** Whoever is not kept from a host lock can step, so no thread is blocked for good by host locks. */
module SyncProgress {
  import opened Base
  import opened Sync
  import opened SyncSteps
  import opened SyncTheorems

  ghost predicate CanStep(s: State, t: Tid) { exists ch, s' :: Step(s, t, ch, s') }

  /** There are handles left to give out. */
  ghost predicate HandlesLeft(s: State) {
    && (exists h: U64 :: h > MUTEX_DESTROYED && h !in s.mtab)
    && exists h: U64 :: h > COND_DESTROYED && h !in s.ctab
  }

  lemma {:induction false} Above(ids: set<nat>) returns (n: nat)
    ensures forall i :: i in ids ==> i < n
    decreases |ids|
  {
    n := 0;
    if ids != {} {
      var i :| i in ids;
      var m := Above(ids - {i});
      n := if i < m then m else i + 1;
      forall j | j in ids ensures j < n { assert j == i || j in ids - {i}; }
    }
  }

  function Picks(id: nat, h: U64, k: Kid, pick: Option<Tid>): Choice { Choice(CallLock(0), id, h, k, pick, false) }

  lemma TableSteps(s: State, t: Tid)
    requires Ready(s, t) && HandlesLeft(s) && (s.thr[t].MutexTable? || s.thr[t].CondTable?)
    ensures CanStep(s, t)
  {
    match s.thr[t]
    case MutexTable(slot, req) =>
      var h: U64 :| h > MUTEX_DESTROYED && h !in s.mtab;
      var r := Above(s.mrec.Keys);
      assert FreshMutex(s, r, h);
      assert Step(s, t, Picks(r, h, 0, None), MutexTableStep(s, t, slot, req, r, h));
    case CondTable(slot, req) =>
      var h: U64 :| h > COND_DESTROYED && h !in s.ctab;
      var c := Above(s.crec.Keys);
      assert FreshCond(s, c, h);
      assert Step(s, t, Picks(c, h, 0, None), CondTableStep(s, t, slot, req, c, h));
  }

  lemma MutexRecordSteps(s: State, t: Tid)
    requires Tables(s) && Threads(s) && Ready(s, t) && s.thr[t].MutexRecord?
    ensures CanStep(s, t)
  {
    var pc := s.thr[t];
    assert ThreadOk(s, t, pc);
    var s' := if pc.req.ReqLock? then LockStep(s, t, pc.r, pc.req.k)
              else if pc.req.ReqUnlock? then UnlockStep(s, t, pc.r)
              else DestroyStep(s, t, pc.slot, pc.h, pc.r);
    assert Step(s, t, Picks(0, 0, 0, None), s');
  }

  lemma WokenSteps(s: State, t: Tid)
    requires Threads(s) && Mutexes(s) && Ready(s, t) && s.thr[t].Woken?
    ensures CanStep(s, t)
  {
    var r := s.thr[t].r;
    assert ThreadOk(s, t, s.thr[t]) && RecordOk(s, r, s.mrec[r]);
    assert t in Waiters(s.thr, r);
    assert Step(s, t, Picks(0, 0, 0, None), WokenStep(s, t, r, s.thr[t].k));
  }

  /** A notification finds a sleeper, or there is none. */
  lemma Picked(s: State, r: Rid) returns (v: Option<Tid>)
    ensures PicksSleeper(s, r, v)
  {
    v := None;
    if u :| u in s.thr && s.thr[u].Asleep? && s.thr[u].r == r { v := Some(u); }
  }

  lemma NotifySteps(s: State, t: Tid)
    requires Ready(s, t) && (s.thr[t].UnlockNotify? || s.thr[t].WaitNotify?)
    ensures CanStep(s, t)
  {
    match s.thr[t]
    case UnlockNotify(r) =>
      var v := Picked(s, r);
      assert Step(s, t, Picks(0, 0, 0, v), At(NotifyMutex(s, r, v), t, Ret(Code(0))));
    case WaitNotify(w, timed) =>
      var v := Picked(s, w.m);
      assert Step(s, t, Picks(0, 0, 0, v), At(NotifyMutex(s, w.m, v), t, TokenCheck(w, timed)));
  }

  lemma CondRecordSteps(s: State, t: Tid)
    requires Tables(s) && Threads(s) && Waits(s) && Ready(s, t) && s.thr[t].CondRecord?
    ensures CanStep(s, t)
  {
    var pc := s.thr[t];
    assert ThreadOk(s, t, pc) && WaitOk(s, t, pc);
    assert Step(s, t, Picks(0, 0, 0, None), CondRecordStep(s, t, pc.slot, pc.h, pc.c, pc.creq));
  }

  lemma WaitMutexSteps(s: State, t: Tid)
    requires Threads(s) && Ready(s, t) && s.thr[t].WaitMutex?
    ensures CanStep(s, t)
  {
    var pc := s.thr[t];
    assert ThreadOk(s, t, pc);
    var k := Above(s.tok.Keys);
    assert Step(s, t, Picks(0, 0, k, None), WaitMutexStep(s, t, pc.c, pc.m, pc.slot, pc.timed, k));
  }

  lemma TokenSteps(s: State, t: Tid)
    requires Waits(s) && Ready(s, t) && (s.thr[t].TokenCheck? || s.thr[t].TokenWoken?)
    ensures CanStep(s, t)
  {
    assert WaitOk(s, t, s.thr[t]);
    match s.thr[t]
    case TokenCheck(w, timed) => assert Step(s, t, Picks(0, 0, 0, None), TokenStep(s, t, w, timed, false));
    case TokenWoken(w, timed, expired) => assert Step(s, t, Picks(0, 0, 0, None), TokenStep(s, t, w, timed, expired));
  }

  lemma EndSteps(s: State, t: Tid)
    requires Waits(s) && Ready(s, t) && (s.thr[t].ExpireToken? || s.thr[t].Restore?)
    ensures CanStep(s, t)
  {
    assert WaitOk(s, t, s.thr[t]);
    match s.thr[t]
    case ExpireToken(w) => assert Step(s, t, Picks(0, 0, 0, None), ExpireStep(s, t, w));
    case Restore(w, got) => assert Step(s, t, Picks(0, 0, 0, None), RestoreStep(s, t, w, got));
  }

  lemma MarkSteps(s: State, t: Tid)
    requires Threads(s) && Queues(s) && Ready(s, t) && (s.thr[t].SignalToken? || s.thr[t].BroadcastToken?)
    ensures CanStep(s, t)
  {
    var c := s.thr[t].c;
    assert ThreadOk(s, t, s.thr[t]);
    assert s.crec[c].queue[0] in s.crec[c].queue && QueuedOk(s, c, s.crec[c].queue[0]);
    match s.thr[t]
    case SignalToken(_, k) => assert Step(s, t, Picks(0, 0, 0, None), SignalStep(s, t, c, k));
    case BroadcastToken(_, k, marked, all) =>
      assert Step(s, t, Picks(0, 0, 0, None), BroadcastStep(s, t, c, k, marked, all));
  }

  lemma FreeSteps(s: State, t: Tid)
    requires Threads(s) && Ready(s, t)
    requires s.thr[t].Ret? || s.thr[t].Asleep? || s.thr[t].TokenAsleep? || s.thr[t].NotifyTokens?
    ensures CanStep(s, t)
  {
    assert ThreadOk(s, t, s.thr[t]);
    var ch := Picks(0, 0, 0, None);
    match s.thr[t]
    case Ret(_) => assert Step(s, t, ch, At(s, t, Entry(s, ch.call)));
    case Asleep(r, k) => assert Step(s, t, ch, At(s, t, Woken(r, k)));
    case TokenAsleep(w, timed) => assert Step(s, t, ch, At(s, t, TokenWoken(w, timed, timed && ch.expire)));
    case NotifyTokens(pending) => assert Step(s, t, ch, NotifyTokensStep(s, t, pending));
  }

  /** In a reachable state a thread can step exactly if no other holds the host lock that it wants, as long as there
      are handles left: nothing that a step relies on is ever missing. */
  lemma ReadySteps(s: State, t: Tid)
    requires Reachable(s) && HandlesLeft(s)
    ensures CanStep(s, t) <==> Ready(s, t)
  {
    if Ready(s, t) {
      ReachableInv(s);
      var pc := s.thr[t];
      if pc.MutexTable? || pc.CondTable? { TableSteps(s, t); }
      else if pc.MutexRecord? { MutexRecordSteps(s, t); }
      else if pc.Woken? { WokenSteps(s, t); }
      else if pc.UnlockNotify? || pc.WaitNotify? { NotifySteps(s, t); }
      else if pc.CondRecord? { CondRecordSteps(s, t); }
      else if pc.WaitMutex? { WaitMutexSteps(s, t); }
      else if pc.TokenCheck? || pc.TokenWoken? { TokenSteps(s, t); }
      else if pc.ExpireToken? || pc.Restore? { EndSteps(s, t); }
      else if pc.SignalToken? || pc.BroadcastToken? { MarkSteps(s, t); }
      else { FreeSteps(s, t); }
    }
  }

  /** From any thread, following who blocks whom reaches a thread that can step. */
  lemma SomeoneSteps(s: State, t: Tid) returns (path: seq<Tid>)
    requires Reachable(s) && HandlesLeft(s) && t in s.thr
    ensures Chain(s, path) && path[0] == t && CanStep(s, path[|path| - 1])
  {
    path := BlockedChainEnds(s, t);
    ReadySteps(s, path[|path| - 1]);
  }
}
