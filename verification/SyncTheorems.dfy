/** What holds in every run of the mutex and condition machine. */
module SyncTheorems {
  import opened Base
  import opened Sync
  import opened SyncSteps
  import opened SyncProof
  import opened SyncPreserve
  import opened SyncPreserveCond

  lemma MutexStepPreserves(s: State, t: Tid, ch: Choice, s': State)
    requires Inv(s) && Step(s, t, ch, s') && !Undecided(s.thr[t])
    ensures Inv(s')
  {
    match s.thr[t]
    case Ret(_) => CallStep(s, t, ch.call);
    case MutexTable(slot, req) => MutexTablePreserves(s, t, slot, req, ch.id, ch.h);
    case MutexRecord(slot, h, r, req) =>
      Localise(s, t);
      match req {
        case ReqLock(k) => LockPreserves(s, t, r, k);
        case ReqUnlock => UnlockPreserves(s, t, r);
        case ReqDestroy => DestroyPreserves(s, t, slot, h, r);
      }
    case Asleep(r, k) => Localise(s, t); DozePreserves(s, t, r, k);
    case Woken(r, k) => WokenPreserves(s, t, r, k);
    case UnlockNotify(r) => Localise(s, t); NotifyPreserves(s, t, r, ch.pick);
    case WaitMutex(c, m, slot, timed) => WaitMutexPreserves(s, t, c, m, slot, timed, ch.k);
    case Restore(w, got) => RestorePreserves(s, t, w, got);
    case SignalToken(c, k) => SignalPreserves(s, t, c, k);
    case BroadcastToken(c, k, marked, all) => BroadcastPreserves(s, t, c, k, marked, all);
    case NotifyTokens(pending) => NotifyTokensPreserves(s, t, pending);
  }

  lemma CondStepPreserves(s: State, t: Tid, ch: Choice, s': State)
    requires Inv(s) && Step(s, t, ch, s') && Undecided(s.thr[t])
    ensures Inv(s')
  {
    match s.thr[t]
    case CondTable(slot, req) => CondTablePreserves(s, t, slot, req, ch.id, ch.h);
    case CondRecord(slot, h, c, req) => CondRecordPreserves(s, t, slot, h, c, req);
    case WaitNotify(w, timed) => Localise(s, t); NotifyPreserves(s, t, w.m, ch.pick);
    case TokenCheck(w, timed) => TokenPreserves(s, t, w, timed, false);
    case TokenAsleep(w, timed) => TokenWakes(s, t, w, timed, timed && ch.expire);
    case TokenWoken(w, timed, expired) => TokenPreserves(s, t, w, timed, expired);
    case ExpireToken(w) => ExpirePreserves(s, t, w);
  }

  lemma StorePreserves(s: State, mem: map<U64, U64>, wr: set<U64>)
    requires Inv(s)
    ensures Inv(s.(mem := mem, wr := wr))
  {
    var s' := s.(mem := mem, wr := wr);
    forall t | t in s'.thr ensures ThreadOk(s', t, s'.thr[t]) && WaitOk(s', t, s'.thr[t]) {
      assert ThreadOk(s, t, s.thr[t]) && WaitOk(s, t, s.thr[t]);
    }
    forall c, k | c in s'.crec && k in s'.crec[c].queue ensures QueuedOk(s', c, k) { assert QueuedOk(s, c, k); }
    SameMutexes(s, s');
  }

  lemma ActPreserves(s: State, a: Action, s': State)
    requires Inv(s) && Act(s, a, s')
    ensures Inv(s')
  {
    match a
    case Run(t, ch) => if Undecided(s.thr[t]) { CondStepPreserves(s, t, ch, s'); }
                       else { MutexStepPreserves(s, t, ch, s'); }
    case GuestStore(mem, wr) => StorePreserves(s, mem, wr);
  }

  lemma InitialInv(s: State)
    requires Initial(s)
    ensures Inv(s)
  {
  }

  /** The invariant holds in every state of every run. */
  lemma {:induction false} RunsKeepInv(run: seq<State>, acts: seq<Action>, i: nat)
    requires IsRun(run, acts) && i < |run|
    ensures Inv(run[i])
  {
    if i == 0 {
      InitialInv(run[0]);
    } else {
      RunsKeepInv(run, acts, i - 1);
      assert StepAt(run, acts, i - 1);
      ActPreserves(run[i - 1], acts[i - 1], run[i]);
    }
  }

  /** `s` occurs in some run. */
  ghost predicate Reachable(s: State) {
    exists run, acts :: IsRun(run, acts) && run[|acts|] == s
  }

  lemma ReachableInv(s: State)
    requires Reachable(s)
    ensures Inv(s)
  {
    var run, acts :| IsRun(run, acts) && run[|acts|] == s;
    RunsKeepInv(run, acts, |acts|);
  }

  // ---- Condition variables ----------------------------------------------

  /** A waiter is queued exactly while it is enqueued, unsignalled and not timed out; nothing else is queued. */
  lemma QueuedExactly(s: State)
    requires Reachable(s)
    ensures forall t :: t in s.thr && WaitOf(s.thr[t]).Some? ==>
              var w := WaitOf(s.thr[t]).value;
              && w.k in s.tok && w.c in s.crec
              && (w.k in s.crec[w.c].queue <==> Undecided(s.thr[t]) && !s.tok[w.k].signaled)
    ensures forall c, k :: c in s.crec && k in s.crec[c].queue ==>
              exists t :: t in s.thr && WaitOf(s.thr[t]).Some? && WaitOf(s.thr[t]).value.k == k
                          && WaitOf(s.thr[t]).value.c == c
    ensures forall c :: c in s.crec ==> NoDup(s.crec[c].queue)
  {
    ReachableInv(s);
    forall t | t in s.thr && WaitOf(s.thr[t]).Some?
      ensures var w := WaitOf(s.thr[t]).value;
        && w.k in s.tok && w.c in s.crec
        && (w.k in s.crec[w.c].queue <==> Undecided(s.thr[t]) && !s.tok[w.k].signaled)
    {
      assert WaitOk(s, t, s.thr[t]);
      var w := WaitOf(s.thr[t]).value;
      assert w.k in s.crec[w.c].queue ==> QueuedOk(s, w.c, w.k);
    }
    forall c, k | c in s.crec && k in s.crec[c].queue
      ensures exists t :: t in s.thr && WaitOf(s.thr[t]).Some? && WaitOf(s.thr[t]).value.k == k
                          && WaitOf(s.thr[t]).value.c == c
    {
      assert QueuedOk(s, c, k);
      var t := s.tok[k].owner;
      assert WaitOk(s, t, s.thr[t]);
    }
  }

  /** A signal on a non-empty queue marks its front waiter, which was unsignalled, and no other. */
  lemma SignalMarksOne(s: State, t: Tid, ch: Choice, s': State, c: Cid, k: Kid)
    requires Reachable(s) && Step(s, t, ch, s') && s.thr[t] == SignalToken(c, k)
    ensures c in s.crec && s.crec[c].queue != [] && s.crec[c].queue[0] == k && k in s.tok && !s.tok[k].signaled
    ensures s'.crec == s.crec[c := s.crec[c].(queue := s.crec[c].queue[1..])]
    ensures s'.tok == s.tok[k := s.tok[k].(signaled := true)]
  {
    ReachableInv(s);
    assert ThreadOk(s, t, s.thr[t]);
    assert s.crec[c].queue[0] in s.crec[c].queue;
    assert QueuedOk(s, c, k);
  }

  /** A broadcast that finishes has marked every waiter queued when it took the record, and emptied the queue. */
  lemma BroadcastMarksAll(s: State, t: Tid, ch: Choice, s': State, c: Cid, k: Kid, marked: seq<Kid>, all: seq<Kid>)
    requires Reachable(s) && Step(s, t, ch, s') && s.thr[t] == BroadcastToken(c, k, marked, all)
    requires s'.thr[t].NotifyTokens?
    ensures s'.thr[t].pending == all && c in s'.crec && s'.crec[c].queue == [] && AllSignaled(s', all)
  {
    ReachableInv(s);
    assert ThreadOk(s, t, s.thr[t]);
    assert s.crec[c].queue == [k] + s.crec[c].queue[1..];
    assert all == marked + [k];
  }

  lemma LockSideKeepsTokens(s: State, t: Tid, ch: Choice, s': State)
    requires Step(s, t, ch, s')
    requires s.thr[t].Ret? || s.thr[t].MutexTable? || s.thr[t].MutexRecord? || s.thr[t].Asleep? || s.thr[t].Woken?
    ensures s'.tok == s.tok
  {
  }

  lemma CondLocksKeepTokens(s: State, t: Tid, ch: Choice, s': State)
    requires Step(s, t, ch, s') && (s.thr[t].CondTable? || s.thr[t].CondRecord? || s.thr[t].NotifyTokens?)
    ensures s'.tok == s.tok
  {
  }

  lemma NotifiesKeepTokens(s: State, t: Tid, ch: Choice, s': State)
    requires Step(s, t, ch, s') && (s.thr[t].UnlockNotify? || s.thr[t].WaitNotify? || s.thr[t].Restore?)
    ensures s'.tok == s.tok
  {
  }

  lemma WaitsKeepTokens(s: State, t: Tid, ch: Choice, s': State)
    requires Step(s, t, ch, s')
             && (s.thr[t].TokenCheck? || s.thr[t].TokenAsleep? || s.thr[t].TokenWoken? || s.thr[t].ExpireToken?)
    ensures s'.tok == s.tok
  {
  }

  lemma MarkingKeepsSignals(s: State, t: Tid, ch: Choice, s': State, k: Kid)
    requires Step(s, t, ch, s') && (s.thr[t].WaitMutex? || s.thr[t].SignalToken? || s.thr[t].BroadcastToken?)
    requires k in s.tok && s.tok[k].signaled
    ensures k in s'.tok && s'.tok[k].signaled
  {
  }

  lemma SignalsStayOneStep(s: State, a: Action, s': State, k: Kid)
    requires Act(s, a, s') && k in s.tok && s.tok[k].signaled
    ensures k in s'.tok && s'.tok[k].signaled
  {
    if a.Run? {
      var pc := s.thr[a.t];
      if pc.WaitMutex? || pc.SignalToken? || pc.BroadcastToken? {
        MarkingKeepsSignals(s, a.t, a.ch, s', k);
      } else if pc.CondTable? || pc.CondRecord? || pc.NotifyTokens? {
        CondLocksKeepTokens(s, a.t, a.ch, s');
      } else if pc.UnlockNotify? || pc.WaitNotify? || pc.Restore? {
        NotifiesKeepTokens(s, a.t, a.ch, s');
      } else if Undecided(pc) {
        WaitsKeepTokens(s, a.t, a.ch, s');
      } else {
        LockSideKeepsTokens(s, a.t, a.ch, s');
      }
    }
  }

  ghost predicate SignalsKept(s: State, s': State) {
    forall k :: k in s.tok && s.tok[k].signaled ==> k in s'.tok && s'.tok[k].signaled
  }

  lemma EachStepKeepsSignals(run: seq<State>, acts: seq<Action>)
    requires IsRun(run, acts)
    ensures forall i :: 0 <= i < |run| - 1 ==> SignalsKept(run[i], run[i + 1])
  {
    forall i | 0 <= i < |run| - 1 ensures SignalsKept(run[i], run[i + 1]) {
      assert StepAt(run, acts, i);
      forall k | k in run[i].tok && run[i].tok[k].signaled ensures k in run[i + 1].tok && run[i + 1].tok[k].signaled {
        SignalsStayOneStep(run[i], acts[i], run[i + 1], k);
      }
    }
  }

  lemma {:induction false} SignalsStay(run: seq<State>, i: nat, j: nat, k: Kid)
    requires forall i :: 0 <= i < |run| - 1 ==> SignalsKept(run[i], run[i + 1])
    requires i <= j < |run| && k in run[i].tok && run[i].tok[k].signaled
    ensures k in run[j].tok && run[j].tok[k].signaled
  {
    if i < j {
      SignalsStay(run, i, j - 1, k);
      assert SignalsKept(run[j - 1], run[j - 1 + 1]);
    }
  }

  /** No signal is spent twice: at most one step of a run marks a given token. */
  lemma MarkedOnce(run: seq<State>, acts: seq<Action>, i: nat, j: nat, k: Kid)
    requires IsRun(run, acts) && i < |acts| && j < |acts|
    requires k in run[i].tok && !run[i].tok[k].signaled && k in run[i + 1].tok && run[i + 1].tok[k].signaled
    requires k in run[j].tok && !run[j].tok[k].signaled && k in run[j + 1].tok && run[j + 1].tok[k].signaled
    ensures i == j
  {
    EachStepKeepsSignals(run, acts);
    if i < j { SignalsStay(run, i + 1, j, k); }
    if j < i { SignalsStay(run, j + 1, i, k); }
  }

  /** A wait returns 0 exactly when its token was marked; a wait that timed out is off the queue, unmarked. */
  lemma NoSignalLost(s: State, t: Tid, w: Wait, got: Rid, code: int)
    requires Reachable(s) && t in s.thr && s.thr[t] == Ret(WaitDone(w, got, code))
    ensures w.k in s.tok && (code == 0 <==> s.tok[w.k].signaled) && (code == ETIMEDOUT <==> !s.tok[w.k].signaled)
    ensures forall c :: c in s.crec ==> w.k !in s.crec[c].queue
  {
    ReachableInv(s);
    assert ThreadOk(s, t, s.thr[t]) && WaitOk(s, t, s.thr[t]);
    forall c | c in s.crec ensures w.k !in s.crec[c].queue {
      assert w.k in s.crec[c].queue ==> QueuedOk(s, c, w.k);
    }
  }

  /** A condition wait that returns 0 or ETIMEDOUT owns the mutex it rejoined, at its entry depth if that is the mutex
      it released. */
  lemma WaitReturnsOwning(s: State, t: Tid, w: Wait, got: Rid, code: int)
    requires Reachable(s) && t in s.thr && s.thr[t] == Ret(WaitDone(w, got, code))
    ensures got in s.mrec && s.mrec[got].locked && s.mrec[got].owner == Some(t)
            && Balance(s.log, t, got) == s.mrec[got].depth
    ensures got == w.m ==> Balance(s.log, t, w.m) == w.d
  {
    ReachableInv(s);
    assert ThreadOk(s, t, s.thr[t]);
    assert RecordOk(s, got, s.mrec[got]);
    assert Balance(s.log, t, got) == Believed(s, t, got);
  }

  /** A condition wait saves the depth its caller held, and is queued in the step that frees the mutex. */
  lemma WaitSavesDepth(s: State, t: Tid, ch: Choice, s': State, w: Wait, timed: bool)
    requires Reachable(s) && Step(s, t, ch, s') && s.thr[t].WaitMutex? && s'.thr[t] == WaitNotify(w, timed)
    ensures w.d == Balance(s.log, t, w.m) > 0 && Balance(s'.log, t, w.m) == 0
    ensures w.m in s'.mrec && !s'.mrec[w.m].locked && w.c in s'.crec && w.k in s'.crec[w.c].queue
  {
    ReachableInv(s);
    assert Balance(s.log, t, w.m) == Believed(s, t, w.m);
    assert RecordOk(s, w.m, s.mrec[w.m]);
    BalanceAppend(s.log, Released(t, w.m), t, w.m);
    assert s'.crec[w.c].queue[|s.crec[w.c].queue|] == w.k;
  }

  lemma SignalSetsOut(s: State, u: Tid, ch: Choice, s': State, slot: U64, h: U64, c: Cid)
    requires Step(s, u, ch, s') && s.thr[u] == CondRecord(slot, h, c, ReqSignal)
    ensures c in s.crec && u in s'.thr
    ensures s.crec[c].queue != [] ==> s'.thr[u] == SignalToken(c, s.crec[c].queue[0])
  {
  }

  lemma BroadcastSetsOut(s: State, u: Tid, ch: Choice, s': State, slot: U64, h: U64, c: Cid)
    requires Step(s, u, ch, s') && s.thr[u] == CondRecord(slot, h, c, ReqBroadcast)
    ensures c in s.crec && u in s'.thr
    ensures var q := s.crec[c].queue; q != [] ==> s'.thr[u] == BroadcastToken(c, q[0], [], q)
  {
  }

  /** Whoever signals or broadcasts after a waiter released the mutex finds it queued, unless it has been signalled
      already; a broadcast sets out to mark the whole queue, with that waiter in it. */
  lemma SignallerFindsWaiter(s: State, t: Tid, w: Wait, u: Tid, ch: Choice, s': State, slot: U64, h: U64, all: bool)
    requires Reachable(s) && t in s.thr && WaitOf(s.thr[t]) == Some(w) && Undecided(s.thr[t])
    requires Step(s, u, ch, s') && s.thr[u] == CondRecord(slot, h, w.c, if all then ReqBroadcast else ReqSignal)
    ensures w.k in s.tok && w.c in s.crec && u in s'.thr
    ensures s.tok[w.k].signaled
            || var q := s.crec[w.c].queue;
               w.k in q && s'.thr[u] == if all then BroadcastToken(w.c, q[0], [], q) else SignalToken(w.c, q[0])
  {
    ReachableInv(s);
    assert WaitOk(s, t, s.thr[t]);
    if all { BroadcastSetsOut(s, u, ch, s', slot, h, w.c); } else { SignalSetsOut(s, u, ch, s', slot, h, w.c); }
  }

  // ---- Mutexes ----------------------------------------------------------

  /** At most one thread was told it holds a mutex and not yet told it gave it up. */
  lemma MutualExclusion(s: State, t: Tid, u: Tid, r: Rid)
    requires Reachable(s) && Balance(s.log, t, r) > 0 && Balance(s.log, u, r) > 0
    ensures t == u
  {
    ReachableInv(s);
    assert Balance(s.log, t, r) == Believed(s, t, r) && Balance(s.log, u, r) == Believed(s, u, r);
  }

  /** While a mutex is free and a thread sleeps on it, a notification is pending or a woken waiter has yet to
      re-check. */
  lemma NoMutexWakeupLost(s: State, v: Tid, r: Rid, k: Cont)
    requires Reachable(s) && v in s.thr && s.thr[v] == Asleep(r, k)
    ensures r in s.mrec && (s.mrec[r].locked || exists u :: u in s.thr && Wakes(s.thr[u], r))
  {
    ReachableInv(s);
    assert ThreadOk(s, v, s.thr[v]);
  }

  /** While a signalled waiter sleeps on its token, the notification for it is pending. */
  lemma NoTokenWakeupLost(s: State, v: Tid, w: Wait, timed: bool)
    requires Reachable(s) && v in s.thr && s.thr[v] == TokenAsleep(w, timed)
    ensures w.k in s.tok && (!s.tok[w.k].signaled || exists u :: u in s.thr && WakesToken(s.thr[u], w.k))
  {
    ReachableInv(s);
    assert WaitOk(s, v, s.thr[v]);
  }

  /** Owners, mutex waiters and queued condition waiters always refer to records still in their table. */
  lemma NoneDangling(s: State)
    requires Reachable(s)
    ensures forall r :: r in s.mrec && s.mrec[r].owner.Some? ==> r in s.mtab.Values
    ensures forall v :: v in s.thr && (s.thr[v].Asleep? || s.thr[v].Woken?) ==> s.thr[v].r in s.mtab.Values
    ensures forall c :: c in s.crec && s.crec[c].queue != [] ==> c in s.ctab.Values
  {
    ReachableInv(s);
    forall r | r in s.mrec && s.mrec[r].owner.Some? ensures r in s.mtab.Values { assert RecordOk(s, r, s.mrec[r]); }
    forall v | v in s.thr && (s.thr[v].Asleep? || s.thr[v].Woken?) ensures s.thr[v].r in s.mtab.Values {
      var r := s.thr[v].r;
      assert ThreadOk(s, v, s.thr[v]) && RecordOk(s, r, s.mrec[r]);
      assert v in Waiters(s.thr, r);
    }
  }

  // ---- Host locks -------------------------------------------------------

  ghost predicate BlockedBy(s: State, t: Tid, u: Tid) {
    t in s.thr && u in s.thr && Wants(s.thr[t]).Some? && Wants(s.thr[t]).value in Held(s.thr[u])
  }

  /** Every acquisition takes a lock ranked above all the locks its thread holds. */
  lemma RanksIncrease(pc: Pc)
    requires Wants(pc).Some?
    ensures forall l :: l in Held(pc) ==> Rank(l) < Rank(Wants(pc).value)
  {
  }

  lemma {:induction false} RankAlong(s: State, chain: seq<Tid>, i: nat)
    requires i < |chain| && forall j :: 0 <= j < |chain| ==> chain[j] in s.thr
    requires Wants(s.thr[chain[i]]).Some?
    requires forall j :: 0 <= j < i ==> BlockedBy(s, chain[j], chain[j + 1])
    ensures Wants(s.thr[chain[0]]).Some?
    ensures Rank(Wants(s.thr[chain[0]]).value) + i <= Rank(Wants(s.thr[chain[i]]).value)
  {
    if i > 0 {
      assert BlockedBy(s, chain[i - 1], chain[i]);
      RanksIncrease(s.thr[chain[i]]);
      RankAlong(s, chain, i - 1);
    }
  }

  /** No cycle of threads waits on host locks. */
  lemma NoHostLockCycle(s: State, cycle: seq<Tid>)
    requires |cycle| >= 2 && cycle[0] == cycle[|cycle| - 1]
    ensures exists j :: 0 <= j < |cycle| - 1 && !BlockedBy(s, cycle[j], cycle[j + 1])
  {
    var last := |cycle| - 1;
    if forall j :: 0 <= j < last ==> BlockedBy(s, cycle[j], cycle[j + 1]) {
      assert BlockedBy(s, cycle[0], cycle[1]);
      forall j | 0 <= j < |cycle| ensures cycle[j] in s.thr {
        if j < last { assert BlockedBy(s, cycle[j], cycle[j + 1]); }
      }
      RankAlong(s, cycle, last);
      assert false;
    }
  }

  ghost predicate Chain(s: State, path: seq<Tid>) {
    path != [] && (forall j :: 0 <= j < |path| ==> path[j] in s.thr)
    && forall j :: 0 <= j < |path| - 1 ==> BlockedBy(s, path[j], path[j + 1])
  }

  /** Following the threads that block `t` always reaches one whose host lock is free. */
  lemma {:induction false} BlockedChainEnds(s: State, t: Tid) returns (path: seq<Tid>)
    requires t in s.thr
    ensures Chain(s, path) && path[0] == t && Ready(s, path[|path| - 1])
    decreases if Wants(s.thr[t]).Some? then 5 - Rank(Wants(s.thr[t]).value) else 0
  {
    if Ready(s, t) {
      path := [t];
    } else {
      var u :| u in s.thr && u != t && Wants(s.thr[t]).value in Held(s.thr[u]);
      if Wants(s.thr[u]).Some? { RanksIncrease(s.thr[u]); }
      var rest := BlockedChainEnds(s, u);
      path := [t] + rest;
      assert BlockedBy(s, t, u);
      forall j | 0 <= j < |path| - 1 ensures BlockedBy(s, path[j], path[j + 1]) {
        if j > 0 { assert BlockedBy(s, rest[j - 1], rest[j]); }
      }
    }
  }
}
