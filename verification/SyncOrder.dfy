/** First come, first served: the order in which the waiters of a condition stand. */
module SyncOrder {
  import opened Base
  import opened Sync
  import opened SyncSteps
  import opened SyncProof
  import opened SyncTheorems

  // ---- Queues -----------------------------------------------------------

  /** `k` comes before `k'`. */
  ghost predicate Ahead(q: seq<Kid>, k: Kid, k': Kid) {
    exists i, j :: 0 <= i < j < |q| && q[i] == k && q[j] == k'
  }

  /** How a queue changes in a step: not at all, or the first leaves, or a waiter that was never there joins at the end,
      or one leaves. */
  ghost predicate QueueStep(tok: map<Kid, Token>, q: seq<Kid>, q': seq<Kid>) {
    || q' == q || (q != [] && q' == q[1..])
    || (exists k :: k !in tok && q' == q + [k]) || (exists k :: q' == Without(q, k))
  }

  lemma {:induction false} WithoutHas(q: seq<Kid>, x: Kid, k: Kid)
    ensures k in Without(q, x) ==> k in q
    decreases |q|
  {
    if q != [] && q[0] != x { WithoutHas(q[1..], x, k); }
  }

  lemma {:induction false} WithoutKeepsOrder(q: seq<Kid>, x: Kid, k: Kid, k': Kid)
    requires NoDup(q) && Ahead(q, k, k') && k in Without(q, x) && k' in Without(q, x)
    ensures Ahead(Without(q, x), k, k')
    decreases |q|
  {
    var i, j :| 0 <= i < j < |q| && q[i] == k && q[j] == k';
    var rest := q[1..];
    if q[0] == x {
      var n :| 0 <= n < |rest| && rest[n] == k;
      assert q[n + 1] == q[i];
      assert rest[i - 1] == k && rest[j - 1] == k';
    } else {
      var w := Without(rest, x);
      assert Without(q, x) == [q[0]] + w;
      var n :| 0 <= n < |[q[0]] + w| && ([q[0]] + w)[n] == k';
      assert q[0] != q[j];
      assert w[n - 1] == k';
      if i == 0 {
        assert ([q[0]] + w)[0] == k && ([q[0]] + w)[n] == k';
      } else {
        LaterIn(q[0], w, k, q, i);
        assert rest[i - 1] == k && rest[j - 1] == k';
        WithoutKeepsOrder(rest, x, k, k');
        var a, b :| 0 <= a < b < |w| && w[a] == k && w[b] == k';
        assert ([q[0]] + w)[a + 1] == k && ([q[0]] + w)[b + 1] == k';
      }
    }
  }

  lemma LaterIn(x: Kid, w: seq<Kid>, k: Kid, q: seq<Kid>, i: nat)
    requires k in [x] + w && NoDup(q) && 0 < i < |q| && q[i] == k && q[0] == x
    ensures k in w
  {
    var n :| 0 <= n < |[x] + w| && ([x] + w)[n] == k;
    assert q[0] != q[i];
    assert w[n - 1] == k;
  }

  /** Nobody overtakes. */
  lemma QueueKeepsOrder(tok: map<Kid, Token>, q: seq<Kid>, q': seq<Kid>, k: Kid, k': Kid)
    requires QueueStep(tok, q, q') && NoDup(q) && Ahead(q, k, k') && k in q' && k' in q'
    ensures Ahead(q', k, k')
  {
    var i, j :| 0 <= i < j < |q| && q[i] == k && q[j] == k';
    if q' == q {
    } else if q != [] && q' == q[1..] {
      var n :| 0 <= n < |q'| && q'[n] == k;
      assert q[n + 1] == q[i];
      assert q'[i - 1] == k && q'[j - 1] == k';
    } else if y :| y !in tok && q' == q + [y] {
      assert q'[i] == k && q'[j] == k';
    } else {
      var x :| q' == Without(q, x);
      WithoutKeepsOrder(q, x, k, k');
    }
  }

  /** Only a waiter that was never there joins, and at the end. */
  lemma QueueJoins(tok: map<Kid, Token>, q: seq<Kid>, q': seq<Kid>, k: Kid)
    requires QueueStep(tok, q, q') && k in q' && k !in q
    ensures k !in tok && q' == q + [k]
  {
    if q' == q {
      assert false;
    } else if q != [] && q' == q[1..] {
      assert false;
    } else if y :| y !in tok && q' == q + [y] {
      assert k == y;
    } else {
      var x :| q' == Without(q, x);
      WithoutHas(q, x, k);
      assert false;
    }
  }

  // ---- Steps ------------------------------------------------------------

  lemma CondTableQueues(s: State, t: Tid, slot: U64, creq: CondReq, id: Cid, h: U64, c: Cid)
    requires FreshCond(s, id, h) && c in s.crec
    ensures var s' := CondTableStep(s, t, slot, creq, id, h); c in s'.crec && s'.crec[c] == s.crec[c]
  {
    match creq
    case ReqCondInit =>
    case ReqCondDestroy =>
    case ReqExpire(_) =>
    case _ => match LookCond(s, slot) { case Miss(_) => case Hit(_) => case Make(_) => }
  }

  lemma CondRecordQueues(s: State, t: Tid, slot: U64, h: U64, id: Cid, creq: CondReq)
    requires id in s.crec
    ensures CondRecordStep(s, t, slot, h, id, creq).crec == s.crec
  {
  }

  lemma WaitQueues(s: State, t: Tid, id: Cid, m: Rid, slot: U64, timed: bool, k: Kid, c: Cid)
    requires id in s.crec && m in s.mrec && k !in s.tok && c in s.crec
    ensures var s' := WaitMutexStep(s, t, id, m, slot, timed, k);
            c in s'.crec && QueueStep(s.tok, s.crec[c].queue, s'.crec[c].queue)
  {
  }

  lemma TokenQueues(s: State, t: Tid, w: Wait, timed: bool, expired: bool)
    requires w.k in s.tok
    ensures TokenStep(s, t, w, timed, expired).crec == s.crec
  {
  }

  lemma ExpireQueues(s: State, t: Tid, w: Wait, c: Cid)
    requires w.k in s.tok && w.c in s.crec && c in s.crec
    ensures var s' := ExpireStep(s, t, w); c in s'.crec && QueueStep(s.tok, s.crec[c].queue, s'.crec[c].queue)
  {
  }

  lemma MarkQueues(s: State, id: Cid, k: Kid, c: Cid)
    requires id in s.crec && s.crec[id].queue != [] && k in s.tok && c in s.crec
    ensures var s' := Mark(s, id, k); c in s'.crec && QueueStep(s.tok, s.crec[c].queue, s'.crec[c].queue)
  {
  }

  lemma MutexSideQueues(s: State, t: Tid, ch: Choice, s': State)
    requires Step(s, t, ch, s')
    requires var pc := s.thr[t];
             pc.Ret? || pc.MutexTable? || pc.MutexRecord? || pc.Asleep? || pc.Woken? || pc.UnlockNotify?
    ensures s'.crec == s.crec
  {
  }

  lemma WaitSideQueues(s: State, t: Tid, ch: Choice, s': State)
    requires Step(s, t, ch, s')
    requires var pc := s.thr[t];
             pc.WaitNotify? || pc.TokenCheck? || pc.TokenAsleep? || pc.TokenWoken? || pc.Restore? || pc.NotifyTokens?
             || pc.CondRecord?
    ensures s'.crec == s.crec
  {
    match s.thr[t]
    case CondRecord(slot, h, id, req) => CondRecordQueues(s, t, slot, h, id, req);
    case TokenCheck(w, timed) => TokenQueues(s, t, w, timed, false);
    case TokenWoken(w, timed, expired) => TokenQueues(s, t, w, timed, expired);
    case _ =>
  }

  /** Every step moves every queue in one of these ways. */
  lemma StepQueues(s: State, t: Tid, ch: Choice, s': State, c: Cid)
    requires Step(s, t, ch, s') && c in s.crec
    ensures c in s'.crec && QueueStep(s.tok, s.crec[c].queue, s'.crec[c].queue)
  {
    match s.thr[t]
    case CondTable(slot, req) => CondTableQueues(s, t, slot, req, ch.id, ch.h, c);
    case WaitMutex(id, m, slot, timed) => WaitQueues(s, t, id, m, slot, timed, ch.k, c);
    case ExpireToken(w) => ExpireQueues(s, t, w, c);
    case SignalToken(id, k) => MarkQueues(s, id, k, c);
    case BroadcastToken(id, k, _, _) => MarkQueues(s, id, k, c);
    case Ret(_) => MutexSideQueues(s, t, ch, s');
    case MutexTable(_, _) => MutexSideQueues(s, t, ch, s');
    case MutexRecord(_, _, _, _) => MutexSideQueues(s, t, ch, s');
    case Asleep(_, _) => MutexSideQueues(s, t, ch, s');
    case Woken(_, _) => MutexSideQueues(s, t, ch, s');
    case UnlockNotify(_) => MutexSideQueues(s, t, ch, s');
    case _ => WaitSideQueues(s, t, ch, s');
  }

  lemma MarkingKeepsTokens(s: State, t: Tid, ch: Choice, s': State, k: Kid)
    requires Step(s, t, ch, s') && (s.thr[t].WaitMutex? || s.thr[t].SignalToken? || s.thr[t].BroadcastToken?)
    requires k in s.tok
    ensures k in s'.tok
  {
  }

  /** Tokens are never given back. */
  lemma TokensStay(s: State, t: Tid, ch: Choice, s': State, k: Kid)
    requires Step(s, t, ch, s') && k in s.tok
    ensures k in s'.tok
  {
    var pc := s.thr[t];
    if pc.WaitMutex? || pc.SignalToken? || pc.BroadcastToken? { MarkingKeepsTokens(s, t, ch, s', k); }
    else if pc.CondTable? || pc.CondRecord? || pc.NotifyTokens? { CondLocksKeepTokens(s, t, ch, s'); }
    else if pc.UnlockNotify? || pc.WaitNotify? || pc.Restore? { NotifiesKeepTokens(s, t, ch, s'); }
    else if Undecided(pc) { WaitsKeepTokens(s, t, ch, s'); }
    else { LockSideKeepsTokens(s, t, ch, s'); }
  }

  // ---- Runs -------------------------------------------------------------

  ghost predicate QueuedAt(run: seq<State>, n: int, c: Cid, k: Kid) {
    0 <= n < |run| && c in run[n].crec && k in run[n].crec[c].queue
  }

  /** Step `n` puts `k` into the queue of `c`. */
  ghost predicate JoinsAt(run: seq<State>, n: int, c: Cid, k: Kid) {
    0 <= n && n + 1 < |run| && c in run[n].crec && !QueuedAt(run, n, c, k) && QueuedAt(run, n + 1, c, k)
  }

  lemma MovesAt(run: seq<State>, acts: seq<Action>, n: nat, n': nat, c: Cid, k: Kid)
    requires IsRun(run, acts) && n' == n + 1 < |run| && c in run[n].crec
    ensures NoDup(run[n].crec[c].queue)
    ensures c in run[n'].crec && QueueStep(run[n].tok, run[n].crec[c].queue, run[n'].crec[c].queue)
    ensures k in run[n].tok ==> k in run[n'].tok
  {
    RunsKeepInv(run, acts, n);
    assert StepAt(run, acts, n);
    var a := acts[n];
    if a.Run? {
      StepQueues(run[n], a.t, a.ch, run[n'], c);
      if k in run[n].tok { TokensStay(run[n], a.t, a.ch, run[n'], k); }
    }
  }

  lemma QueuedHasToken(run: seq<State>, acts: seq<Action>, n: nat, c: Cid, k: Kid)
    requires IsRun(run, acts) && QueuedAt(run, n, c, k)
    ensures k in run[n].tok
  {
    RunsKeepInv(run, acts, n);
    assert QueuedOk(run[n], c, k);
  }

  /** A waiter does not come back: it is queued throughout, from where it is seen queued first to where it is last. */
  lemma {:induction false} QueuedThroughout(run: seq<State>, acts: seq<Action>, i: nat, n: nat, m: nat, c: Cid, k: Kid)
    requires IsRun(run, acts) && i <= m <= n && QueuedAt(run, i, c, k) && QueuedAt(run, n, c, k)
    ensures QueuedAt(run, m, c, k)
    decreases n
  {
    if m < n {
      var n': nat := n - 1;
      TokenThen(run, acts, i, n', c, k);
      MovesAt(run, acts, n', n, c, k);
      if !QueuedAt(run, n', c, k) { QueueJoins(run[n'].tok, run[n'].crec[c].queue, run[n].crec[c].queue, k); }
      QueuedThroughout(run, acts, i, n', m, c, k);
    }
  }

  lemma {:induction false} TokenThen(run: seq<State>, acts: seq<Action>, i: nat, n: nat, c: Cid, k: Kid)
    requires IsRun(run, acts) && i <= n < |run| && QueuedAt(run, i, c, k)
    ensures c in run[n].crec && k in run[n].tok
    decreases n
  {
    if i == n {
      QueuedHasToken(run, acts, i, c, k);
    } else {
      var m: nat := n - 1;
      TokenThen(run, acts, i, m, c, k);
      MovesAt(run, acts, m, n, c, k);
    }
  }

  lemma {:induction false} StaysAhead(run: seq<State>, acts: seq<Action>, i: nat, n: nat, c: Cid, k: Kid, k': Kid)
    requires IsRun(run, acts) && i <= n < |run| && c in run[i].crec && Ahead(run[i].crec[c].queue, k, k')
    requires QueuedAt(run, n, c, k) && QueuedAt(run, n, c, k')
    ensures Ahead(run[n].crec[c].queue, k, k')
    decreases n
  {
    if i < n {
      var m: nat := n - 1;
      AheadQueued(run[i].crec[c].queue, k, k');
      QueuedThroughout(run, acts, i, n, m, c, k);
      QueuedThroughout(run, acts, i, n, m, c, k');
      StaysAhead(run, acts, i, m, c, k, k');
      MovesAt(run, acts, m, n, c, k);
      QueueKeepsOrder(run[m].tok, run[m].crec[c].queue, run[n].crec[c].queue, k, k');
    }
  }

  lemma AheadQueued(q: seq<Kid>, k: Kid, k': Kid)
    requires Ahead(q, k, k')
    ensures k in q && k' in q
  {
  }

  lemma JoinsBehind(run: seq<State>, acts: seq<Action>, n: nat, n': nat, c: Cid, k: Kid, k': Kid)
    requires IsRun(run, acts) && n' == n + 1 < |run| && JoinsAt(run, n, c, k') && QueuedAt(run, n, c, k)
    ensures Ahead(run[n'].crec[c].queue, k, k')
  {
    MovesAt(run, acts, n, n', c, k);
    var q, q' := run[n].crec[c].queue, run[n'].crec[c].queue;
    QueueJoins(run[n].tok, q, q', k');
    var i :| 0 <= i < |q| && q[i] == k;
    assert q'[i] == k && q'[|q|] == k';
  }

  /** First come, first served: of two waiters that are queued on a condition, the one that joined first is ahead, so it
      is the one that a signal takes first. */
  lemma FirstComeFirstServed(run: seq<State>, acts: seq<Action>, c: Cid, k: Kid, k': Kid, i: nat, i': nat, n: nat)
    requires IsRun(run, acts) && i < i' < n < |run| && JoinsAt(run, i, c, k) && JoinsAt(run, i', c, k')
    requires QueuedAt(run, n, c, k) && QueuedAt(run, n, c, k')
    ensures Ahead(run[n].crec[c].queue, k, k') && run[n].crec[c].queue[0] != k'
  {
    QueuedThroughout(run, acts, i + 1, n, i', c, k);
    JoinsBehind(run, acts, i', i' + 1, c, k, k');
    StaysAhead(run, acts, i' + 1, n, c, k, k');
    RunsKeepInv(run, acts, n);
    var q := run[n].crec[c].queue;
    var a, b :| 0 <= a < b < |q| && q[a] == k && q[b] == k';
    assert q[0] != q[b];
  }
}
