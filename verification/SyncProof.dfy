/** Every step of the mutex and condition machine keeps `Inv`. */
module SyncProof {
  import opened Base
  import opened Sync
  import opened SyncSteps

  // ---- One thread moves, or one mutex record changes --------------------

  /** Thread `t` moves to `pc'` and stores record `m` at `r`. */
  function Put(s: State, t: Tid, r: Rid, m: MutexRec, evs: seq<Event>, pc': Pc): State {
    At(s.(mrec := s.mrec[r := m], log := s.log + evs), t, pc')
  }

  lemma OneWaiter(thr: map<Tid, Pc>, t: Tid, pc': Pc, r: Rid)
    requires t in thr
    ensures |Waiters(thr[t := pc'], r)| + (if WaitsOn(thr[t], r) then 1 else 0)
         == |Waiters(thr, r)| + (if WaitsOn(pc', r) then 1 else 0)
  {
    var a, b := Waiters(thr[t := pc'], r), Waiters(thr, r);
    if WaitsOn(pc', r) == WaitsOn(thr[t], r) {
      assert a == b;
    } else if WaitsOn(pc', r) {
      assert a == b + {t};
    } else {
      assert b == a + {t};
    }
  }

  lemma KeepExclusive(s: State, t: Tid, pc': Pc, s': State)
    requires Exclusive(s) && t in s.thr && s'.thr == s.thr[t := pc']
    requires forall l :: l in Held(pc') ==> l in Held(s.thr[t]) || Free(s, t, l)
    ensures Exclusive(s')
  {
  }

  /** Records and tokens only gain entries; other threads keep the facts they rely on. */
  ghost predicate Grows(s: State, s': State, t: Tid) {
    && s'.mtab == s.mtab && s'.ctab == s.ctab && s'.crec == s.crec && s'.tok == s.tok && s.mrec.Keys == s'.mrec.Keys
    && (forall r :: r in s.mrec ==> s'.mrec[r].handle == s.mrec[r].handle && s'.mrec[r].kind == s.mrec[r].kind)
    && (forall r :: r in s.mrec && s.mrec[r].owner.Some? && s.mrec[r].owner != Some(t) ==>
          s'.mrec[r].owner == s.mrec[r].owner && s'.mrec[r].depth == s.mrec[r].depth)
    && (forall r :: r in s.mrec ==> s'.mrec[r].owner in {s.mrec[r].owner, None, Some(t)})
  }

  lemma KeepThread(s: State, s': State, t: Tid, u: Tid, pc: Pc)
    requires Grows(s, s', t) && u != t && ThreadOk(s, u, pc)
    ensures ThreadOk(s', u, pc)
  {
  }

  lemma KeepWait(s: State, s': State, t: Tid, u: Tid, pc: Pc)
    requires Grows(s, s', t) && u != t && WaitOk(s, u, pc)
    ensures WaitOk(s', u, pc)
  {
  }

  /** A queued waiter stays an undecided waiter. */
  predicate Stays(s: State, pc: Pc, pc': Pc) {
    WaitOf(pc).Some? && Undecided(pc) && (WaitOf(pc).value.k in s.tok ==> !s.tok[WaitOf(pc).value.k].signaled)
    ==> WaitOf(pc') == WaitOf(pc) && Undecided(pc')
  }

  lemma KeepQueues(s: State, s': State, t: Tid, pc': Pc)
    requires Queues(s) && t in s.thr && s'.thr == s.thr[t := pc'] && Stays(s, s.thr[t], pc')
    requires s'.crec == s.crec && s'.ctab == s.ctab && s'.tok == s.tok
    ensures Queues(s')
  {
    forall c, k | c in s'.crec && k in s'.crec[c].queue ensures QueuedOk(s', c, k) {
      assert QueuedOk(s, c, k);
    }
  }

  lemma KeepWakeup(s: State, s': State, t: Tid, pc': Pc)
    requires NoLostWakeup(s) && t in s.thr && s'.thr == s.thr[t := pc'] && s'.mrec.Keys == s.mrec.Keys
    requires forall r :: r in s.mrec && s.mrec[r].locked && !s'.mrec[r].locked ==> Wakes(pc', r)
    requires pc'.Asleep? ==> pc'.r in s'.mrec && s'.mrec[pc'.r].locked
    requires forall r :: Wakes(s.thr[t], r) && !Wakes(pc', r) ==> Quiet(s', t, r)
    ensures NoLostWakeup(s')
  {
    forall v | v in s'.thr && s'.thr[v].Asleep? && s'.thr[v].r in s'.mrec && !s'.mrec[s'.thr[v].r].locked
      ensures exists u :: u in s'.thr && Wakes(s'.thr[u], s'.thr[v].r)
    {
      var r := s'.thr[v].r;
      if Wakes(pc', r) {
        assert Wakes(s'.thr[t], r);
      } else {
        assert s.thr[v] == s'.thr[v];
        var u :| u in s.thr && Wakes(s.thr[u], r);
        if u != t { assert Wakes(s'.thr[u], r); }
      }
    }
  }

  /** Nobody needs thread `t` to wake `r`. */
  ghost predicate Quiet(s: State, t: Tid, r: Rid) {
    || (r in s.mrec && s.mrec[r].locked)
    || (forall v :: v in s.thr && s.thr[v].Asleep? ==> s.thr[v].r != r)
    || (exists u :: u in s.thr && u != t && Wakes(s.thr[u], r))
  }

  ghost predicate QuietToken(s: State, k: Kid) {
    forall v :: v in s.thr && s.thr[v].TokenAsleep? ==> s.thr[v].w.k != k
  }

  lemma KeepToken(s: State, s': State, t: Tid, pc': Pc)
    requires NoLostToken(s) && t in s.thr && s'.thr == s.thr[t := pc']
    requires forall k :: k in s'.tok && s'.tok[k].signaled ==> (k in s.tok && s.tok[k].signaled) || WakesToken(pc', k)
    requires pc'.TokenAsleep? ==> pc'.w.k in s'.tok && !s'.tok[pc'.w.k].signaled
    requires forall k :: WakesToken(s.thr[t], k) && !WakesToken(pc', k) ==> QuietToken(s', k)
    ensures NoLostToken(s')
  {
    forall v | v in s'.thr && s'.thr[v].TokenAsleep? && s'.thr[v].w.k in s'.tok && s'.tok[s'.thr[v].w.k].signaled
      ensures exists u :: u in s'.thr && WakesToken(s'.thr[u], s'.thr[v].w.k)
    {
      var k := s'.thr[v].w.k;
      if WakesToken(pc', k) {
        assert WakesToken(s'.thr[t], k);
      } else {
        var u :| u in s.thr && WakesToken(s.thr[u], k);
        assert u != t;
        assert WakesToken(s'.thr[u], k);
      }
    }
  }

  lemma BalanceAppend(log: seq<Event>, e: Event, t: Tid, r: Rid)
    ensures e.t != t || e.r != r ==> Balance(log + [e], t, r) == Balance(log, t, r)
    ensures e == Locked(t, r) ==> Balance(log + [e], t, r) == Balance(log, t, r) + 1
    ensures e == Unlocked(t, r) && Balance(log, t, r) > 0 ==> Balance(log + [e], t, r) == Balance(log, t, r) - 1
    ensures e == Released(t, r) ==> Balance(log + [e], t, r) == 0
    ensures e.Restored? && e.t == t && e.r == r ==> Balance(log + [e], t, r) == e.d
  {
    assert (log + [e])[..|log|] == log;
  }

  /** What a new program counter must satisfy, whatever else the step does. */
  ghost predicate Movable(s: State, s': State, t: Tid, pc': Pc) {
    t in s.thr && var pc := s.thr[t];
    && (forall l :: l in Held(pc') ==> l in Held(pc) || Free(s, t, l))
    && ThreadOk(s', t, pc') && WaitOk(s', t, pc') && Stays(s, pc, pc')
    && (pc'.Asleep? ==> pc'.r in s'.mrec && s'.mrec[pc'.r].locked)
    && (forall r :: Wakes(pc, r) && !Wakes(pc', r) ==> Quiet(s', t, r))
    && (pc'.TokenAsleep? ==> pc'.w.k in s.tok && !s.tok[pc'.w.k].signaled)
    && (forall k :: WakesToken(pc, k) && !WakesToken(pc', k) ==> QuietToken(s', k))
  }

  lemma KeepThreads(s: State, s': State, t: Tid, pc': Pc)
    requires Threads(s) && Waits(s) && Grows(s, s', t) && s'.thr == s.thr[t := pc']
    requires ThreadOk(s', t, pc') && WaitOk(s', t, pc')
    ensures Threads(s') && Waits(s')
  {
    forall u | u in s'.thr ensures ThreadOk(s', u, s'.thr[u]) && WaitOk(s', u, s'.thr[u]) {
      if u != t {
        KeepThread(s, s', t, u, s.thr[u]);
        KeepWait(s, s', t, u, s.thr[u]);
      }
    }
  }

  lemma MoveThreads(s: State, t: Tid, pc': Pc)
    requires Exclusive(s) && Threads(s) && Waits(s) && Queues(s) && Movable(s, At(s, t, pc'), t, pc')
    ensures var s' := At(s, t, pc'); Exclusive(s') && Threads(s') && Waits(s') && Queues(s')
  {
    var s' := At(s, t, pc');
    KeepExclusive(s, t, pc', s');
    KeepThreads(s, s', t, pc');
    KeepQueues(s, s', t, pc');
  }

  lemma MoveRecords(s: State, t: Tid, pc': Pc)
    requires Mutexes(s) && History(s) && t in s.thr
    requires forall r :: WaitsOn(pc', r) == WaitsOn(s.thr[t], r) && Restoring(pc', r) == Restoring(s.thr[t], r)
    ensures Mutexes(At(s, t, pc')) && History(At(s, t, pc'))
  {
    var s' := At(s, t, pc');
    forall r | r in s'.mrec ensures RecordOk(s', r, s'.mrec[r]) {
      assert RecordOk(s, r, s.mrec[r]);
      OneWaiter(s.thr, t, pc', r);
    }
    forall u, r ensures Balance(s'.log, u, r) == Believed(s', u, r) { assert Believed(s', u, r) == Believed(s, u, r); }
  }

  /** Thread `t` may move to `pc'` without touching shared records. */
  lemma Move(s: State, t: Tid, pc': Pc)
    requires Inv(s) && Movable(s, At(s, t, pc'), t, pc')
    requires forall r :: WaitsOn(pc', r) == WaitsOn(s.thr[t], r) && Restoring(pc', r) == Restoring(s.thr[t], r)
    ensures Inv(At(s, t, pc'))
  {
    MoveThreads(s, t, pc');
    MoveRecords(s, t, pc');
    KeepWakeup(s, At(s, t, pc'), t, pc');
    KeepToken(s, At(s, t, pc'), t, pc');
  }

  /** Thread `t` may replace record `r` by `m`. */
  ghost predicate Puttable(s: State, t: Tid, r: Rid, m: MutexRec, evs: seq<Event>, pc': Pc) {
    && t in s.thr && r in s.mrec && var pc, m0 := s.thr[t], s.mrec[r];
    && m.kind == m0.kind && m.handle == m0.handle
    && (m.locked == m.owner.Some?) && (m.locked ==> 1 <= m.depth <= DEPTH_MAX && m.owner.value in s.thr)
    && (!m.locked ==> m.depth == 0) && (m.kind != Recursive ==> m.depth <= 1)
    && (m.locked || m.waiters > 0 ==> LiveMutex(s, r))
    && m.waiters + (if WaitsOn(pc, r) then 1 else 0) == m0.waiters + (if WaitsOn(pc', r) then 1 else 0)
    && (forall x :: x != r ==> WaitsOn(pc', x) == WaitsOn(pc, x) && Restoring(pc', x) == Restoring(pc, x))
    && (m.owner != m0.owner || m.depth != m0.depth ==> m0.owner in {None, Some(t)} && m.owner in {None, Some(t)})
    && (m0.locked && !m.locked ==> Wakes(pc', r))
    && |evs| <= 1 && (evs != [] ==> evs[0].t == t && evs[0].r == r)
    && Balance(s.log + evs, t, r) == (if m.owner == Some(t) && !Restoring(pc', r) then m.depth else 0)
  }

  lemma PutRecords(s: State, t: Tid, r: Rid, m: MutexRec, evs: seq<Event>, pc': Pc)
    requires Mutexes(s) && Puttable(s, t, r, m, evs, pc')
    ensures Mutexes(Put(s, t, r, m, evs, pc'))
  {
    var s' := Put(s, t, r, m, evs, pc');
    forall x | x in s'.mrec ensures RecordOk(s', x, s'.mrec[x]) {
      assert RecordOk(s, x, s.mrec[x]);
      OneWaiter(s.thr, t, pc', x);
    }
  }

  lemma PutHistory(s: State, t: Tid, r: Rid, m: MutexRec, evs: seq<Event>, pc': Pc)
    requires History(s) && Puttable(s, t, r, m, evs, pc')
    ensures History(Put(s, t, r, m, evs, pc'))
  {
    var s' := Put(s, t, r, m, evs, pc');
    forall u, x ensures Balance(s'.log, u, x) == Believed(s', u, x) {
      if u != t || x != r {
        if evs == [] { assert s'.log == s.log; } else { assert evs == [evs[0]]; BalanceAppend(s.log, evs[0], u, x); }
        assert Balance(s.log, u, x) == Believed(s, u, x);
      }
    }
  }

  lemma PutThreads(s: State, t: Tid, r: Rid, m: MutexRec, evs: seq<Event>, pc': Pc)
    requires Exclusive(s) && Threads(s) && Waits(s) && Queues(s)
    requires Puttable(s, t, r, m, evs, pc') && Movable(s, Put(s, t, r, m, evs, pc'), t, pc')
    ensures var s' := Put(s, t, r, m, evs, pc'); Exclusive(s') && Threads(s') && Waits(s') && Queues(s')
  {
    var s' := Put(s, t, r, m, evs, pc');
    KeepExclusive(s, t, pc', s');
    KeepThreads(s, s', t, pc');
    KeepQueues(s, s', t, pc');
  }

  lemma PutWakeups(s: State, t: Tid, r: Rid, m: MutexRec, evs: seq<Event>, pc': Pc)
    requires NoLostWakeup(s) && NoLostToken(s)
    requires Puttable(s, t, r, m, evs, pc') && Movable(s, Put(s, t, r, m, evs, pc'), t, pc')
    ensures var s' := Put(s, t, r, m, evs, pc'); NoLostWakeup(s') && NoLostToken(s')
  {
    var s' := Put(s, t, r, m, evs, pc');
    KeepWakeup(s, s', t, pc');
    KeepToken(s, s', t, pc');
  }

  lemma PutKeepsInv(s: State, t: Tid, r: Rid, m: MutexRec, evs: seq<Event>, pc': Pc)
    requires Inv(s) && Puttable(s, t, r, m, evs, pc') && Movable(s, Put(s, t, r, m, evs, pc'), t, pc')
    ensures Inv(Put(s, t, r, m, evs, pc'))
  {
    PutThreads(s, t, r, m, evs, pc');
    PutWakeups(s, t, r, m, evs, pc');
    PutRecords(s, t, r, m, evs, pc');
    PutHistory(s, t, r, m, evs, pc');
  }
}
