/** What the codes that lock and unlock return say about ownership, and mutual exclusion between whole calls. */
module SyncCodes {
  import opened Base
  import opened Sync
  import opened SyncSteps
  import opened SyncProof
  import opened SyncTheorems
  import opened SyncRuns
  import opened SyncCalls

  // ---- Ownership --------------------------------------------------------

  /** How deep `t` holds `r`; zero if it does not. */
  function DepthOf(s: State, t: Tid, r: Rid): nat {
    if r in s.mrec && s.mrec[r].owner == Some(t) then s.mrec[r].depth else 0
  }

  /** `t` holds everything as before. */
  ghost predicate SameDepths(s: State, s': State, t: Tid) { forall r :: DepthOf(s', t, r) == DepthOf(s, t, r) }

  /** `t` holds everything as before, and `r` once more. */
  ghost predicate Deeper(s: State, s': State, t: Tid, r: Rid) {
    && r in s'.mrec && s'.mrec[r].owner == Some(t) && DepthOf(s', t, r) == DepthOf(s, t, r) + 1
    && forall q :: q != r ==> DepthOf(s', t, q) == DepthOf(s, t, q)
  }

  /** `t` holds everything as before, and `r` once less. */
  ghost predicate Shallower(s: State, s': State, t: Tid, r: Rid) {
    && DepthOf(s, t, r) == DepthOf(s', t, r) + 1
    && forall q :: q != r ==> DepthOf(s', t, q) == DepthOf(s, t, q)
  }

  /** Only a free record, or one of `u`'s, changes hands. */
  ghost predicate Spared(s: State, s': State, u: Tid) {
    forall r, v :: v != u ==> DepthOf(s', v, r) == DepthOf(s, v, r)
  }

  lemma SameRecords(s: State, s': State, u: Tid)
    requires s'.mrec == s.mrec
    ensures Spared(s, s', u)
  {
  }

  /** A record is rewritten that belonged to nobody, or to `u`, and still belongs to nobody else. */
  lemma OneRecord(s: State, s': State, u: Tid, r: Rid, m: MutexRec)
    requires s'.mrec == s.mrec[r := m] && (m.owner == None || m.owner == Some(u))
    requires r in s.mrec ==> s.mrec[r].owner == None || s.mrec[r].owner == Some(u)
    ensures Spared(s, s', u)
  {
  }

  /** The records are as they were, or there is a new one that nobody holds. */
  ghost predicate NewRecord(s: State, s': State, r: Rid) {
    s'.log == s.log && (s'.mrec == s.mrec || (r in s'.mrec && s'.mrec[r].owner == None
                                              && s'.mrec == s.mrec[r := s'.mrec[r]]))
  }

  lemma LookedRecords(s: State, u: Tid, slot: U64, req: MutexReq, look: Look, r: Rid, h: U64)
    ensures NewRecord(s, Looked(s, u, slot, req, look, r, h), r)
  {
  }

  lemma TableRecords(s: State, u: Tid, slot: U64, req: MutexReq, r: Rid, h: U64)
    ensures NewRecord(s, MutexTableStep(s, u, slot, req, r, h), r)
  {
    if !req.ReqInit? && !req.ReqDestroy? {
      LookedRecords(s, u, slot, req, LookMutex(s, slot, !req.ReqUnlock?), r, h);
    } else if req.ReqDestroy? {
      assert MutexTableStep(s, u, slot, req, r, h).mrec == s.mrec;
    }
  }

  lemma TableSpares(s: State, u: Tid, slot: U64, req: MutexReq, r: Rid, h: U64)
    requires r !in s.mrec
    ensures var s' := MutexTableStep(s, u, slot, req, r, h);
            Spared(s, s', u) && SameDepths(s, s', u) && s'.log == s.log
  {
    TableRecords(s, u, slot, req, r, h);
  }

  lemma RecursiveRecords(s: State, u: Tid, r: Rid, k: Cont)
    requires r in s.mrec && s.mrec[r].locked && s.mrec[r].owner == Some(u) && s.mrec[r].kind == Recursive
    ensures LockStep(s, u, r, k).mrec == if s.mrec[r].depth == DEPTH_MAX then s.mrec
                                         else s.mrec[r := s.mrec[r].(depth := s.mrec[r].depth + 1)]
  {
  }

  lemma OnceRecords(s: State, u: Tid, r: Rid, k: Cont)
    requires r in s.mrec && s.mrec[r].locked && s.mrec[r].owner == Some(u) && s.mrec[r].kind != Recursive
    ensures LockStep(s, u, r, k).mrec == if s.mrec[r].kind != Normal then s.mrec
                                         else s.mrec[r := s.mrec[r].(waiters := s.mrec[r].waiters + 1)]
  {
  }

  lemma OtherRecords(s: State, u: Tid, r: Rid, k: Cont)
    requires r in s.mrec && !(s.mrec[r].locked && s.mrec[r].owner == Some(u))
    ensures LockStep(s, u, r, k).mrec
            == s.mrec[r := if s.mrec[r].locked then s.mrec[r].(waiters := s.mrec[r].waiters + 1)
                           else s.mrec[r].(locked := true, owner := Some(u), depth := 1)]
  {
  }

  lemma LockSpares(s: State, u: Tid, r: Rid, k: Cont)
    requires r in s.mrec && RecordOk(s, r, s.mrec[r])
    ensures Spared(s, LockStep(s, u, r, k), u)
  {
    if !(s.mrec[r].locked && s.mrec[r].owner == Some(u)) { OtherRecords(s, u, r, k); }
    else if s.mrec[r].kind == Recursive { RecursiveRecords(s, u, r, k); }
    else { OnceRecords(s, u, r, k); }
  }

  lemma WokenSpares(s: State, u: Tid, r: Rid, k: Cont)
    requires r in s.mrec && s.mrec[r].waiters > 0 && RecordOk(s, r, s.mrec[r])
    ensures Spared(s, WokenStep(s, u, r, k), u)
  {
    var s' := WokenStep(s, u, r, k);
    if !s.mrec[r].locked { OneRecord(s, s', u, r, s'.mrec[r]); }
  }

  lemma UnlockSpares(s: State, u: Tid, r: Rid)
    requires r in s.mrec
    ensures Spared(s, UnlockStep(s, u, r), u)
  {
    var m, s' := s.mrec[r], UnlockStep(s, u, r);
    if m.locked && m.owner == Some(u) { OneRecord(s, s', u, r, s'.mrec[r]); }
  }

  lemma DestroySpares(s: State, u: Tid, slot: U64, h: U64, r: Rid)
    requires r in s.mrec
    ensures DestroyStep(s, u, slot, h, r).mrec == s.mrec
  {
  }

  lemma WaitMutexSpares(s: State, u: Tid, c: Cid, m: Rid, slot: U64, timed: bool, k: Kid)
    requires c in s.crec && m in s.mrec
    ensures Spared(s, WaitMutexStep(s, u, c, m, slot, timed, k), u)
  {
    var rec, s' := s.mrec[m], WaitMutexStep(s, u, c, m, slot, timed, k);
    if rec.locked && rec.owner == Some(u) { OneRecord(s, s', u, m, s'.mrec[m]); }
  }

  lemma RestoreSpares(s: State, u: Tid, w: Wait, got: Rid)
    requires w.m in s.mrec
    ensures Spared(s, RestoreStep(s, u, w, got), u)
  {
    var m, s' := s.mrec[w.m], RestoreStep(s, u, w, got);
    if m.locked && m.owner == Some(u) && m.kind == Recursive { OneRecord(s, s', u, w.m, s'.mrec[w.m]); }
  }

  lemma MutexSideSpares(s: State, u: Tid, ch: Choice, s': State)
    requires Inv(s) && Step(s, u, ch, s')
    requires s.thr[u].MutexTable? || s.thr[u].MutexRecord? || s.thr[u].Woken? || s.thr[u].WaitMutex?
             || s.thr[u].Restore?
    ensures Spared(s, s', u)
  {
    match s.thr[u]
    case MutexTable(slot, req) => TableSpares(s, u, slot, req, ch.id, ch.h);
    case MutexRecord(slot, h, r, req) =>
      assert RecordOk(s, r, s.mrec[r]);
      if req.ReqLock? { LockSpares(s, u, r, req.k); }
      else if req.ReqUnlock? { UnlockSpares(s, u, r); }
      else { DestroySpares(s, u, slot, h, r); }
    case Woken(r, k) => assert RecordOk(s, r, s.mrec[r]); WokenSpares(s, u, r, k);
    case WaitMutex(c, m, slot, timed) => WaitMutexSpares(s, u, c, m, slot, timed, ch.k);
    case Restore(w, got) => RestoreSpares(s, u, w, got);
  }

  /** Every other step leaves the mutex records alone. */
  lemma CondTableKeeps(s: State, u: Tid, slot: U64, creq: CondReq, c: Cid, h: U64)
    ensures var s' := CondTableStep(s, u, slot, creq, c, h); s'.mrec == s.mrec && s'.log == s.log
  {
    match creq
    case ReqCondInit =>
    case ReqCondDestroy =>
    case ReqExpire(_) =>
    case _ => CondLookKeeps(s, u, slot, creq, c, h);
  }

  lemma CondLookKeeps(s: State, u: Tid, slot: U64, creq: CondReq, c: Cid, h: U64)
    requires !creq.ReqCondInit? && !creq.ReqCondDestroy? && !creq.ReqExpire?
    ensures var s' := CondTableStep(s, u, slot, creq, c, h); s'.mrec == s.mrec && s'.log == s.log
  {
  }

  lemma CondRecordKeeps(s: State, u: Tid, slot: U64, h: U64, c: Cid, creq: CondReq)
    requires c in s.crec
    ensures var s' := CondRecordStep(s, u, slot, h, c, creq); s'.mrec == s.mrec && s'.log == s.log
  {
  }

  lemma TokenSideKeeps(s: State, u: Tid, ch: Choice, s': State)
    requires Step(s, u, ch, s')
    requires s.thr[u].TokenCheck? || s.thr[u].TokenAsleep? || s.thr[u].TokenWoken? || s.thr[u].ExpireToken?
    ensures s'.mrec == s.mrec && s'.log == s.log
  {
    match s.thr[u]
    case ExpireToken(w) => ExpireKeeps(s, u, w);
    case TokenCheck(w, timed) => TokenKeeps(s, u, w, timed, false);
    case TokenWoken(w, timed, expired) => TokenKeeps(s, u, w, timed, expired);
    case _ =>
  }

  lemma TokenKeeps(s: State, u: Tid, w: Wait, timed: bool, expired: bool)
    requires w.k in s.tok
    ensures var s' := TokenStep(s, u, w, timed, expired); s'.mrec == s.mrec && s'.log == s.log
  {
  }

  lemma ExpireKeeps(s: State, u: Tid, w: Wait)
    requires w.k in s.tok && w.c in s.crec
    ensures var s' := ExpireStep(s, u, w); s'.mrec == s.mrec && s'.log == s.log
  {
  }

  lemma MarkSideKeeps(s: State, u: Tid, ch: Choice, s': State)
    requires Step(s, u, ch, s') && (s.thr[u].SignalToken? || s.thr[u].BroadcastToken?)
    ensures s'.mrec == s.mrec && s'.log == s.log
  {
  }

  lemma NotifySideKeeps(s: State, u: Tid, ch: Choice, s': State)
    requires Step(s, u, ch, s')
    requires s.thr[u].UnlockNotify? || s.thr[u].WaitNotify? || s.thr[u].NotifyTokens?
    ensures s'.mrec == s.mrec && s'.log == s.log
  {
  }

  lemma CondSideKeeps(s: State, u: Tid, ch: Choice, s': State)
    requires Step(s, u, ch, s') && (s.thr[u].CondTable? || s.thr[u].CondRecord?)
    ensures s'.mrec == s.mrec && s'.log == s.log
  {
    match s.thr[u]
    case CondTable(slot, creq) => CondTableKeeps(s, u, slot, creq, ch.id, ch.h);
    case CondRecord(slot, h, c, creq) => CondRecordKeeps(s, u, slot, h, c, creq);
  }

  lemma OtherSideSpares(s: State, u: Tid, ch: Choice, s': State)
    requires Step(s, u, ch, s')
    requires !(s.thr[u].MutexTable? || s.thr[u].MutexRecord? || s.thr[u].Woken? || s.thr[u].WaitMutex?
               || s.thr[u].Restore?)
    ensures s'.mrec == s.mrec && s'.log == s.log
  {
    var pc := s.thr[u];
    if pc.TokenCheck? || pc.TokenAsleep? || pc.TokenWoken? || pc.ExpireToken? { TokenSideKeeps(s, u, ch, s'); }
    else if pc.SignalToken? || pc.BroadcastToken? { MarkSideKeeps(s, u, ch, s'); }
    else if pc.UnlockNotify? || pc.WaitNotify? || pc.NotifyTokens? { NotifySideKeeps(s, u, ch, s'); }
    else if pc.CondTable? || pc.CondRecord? { CondSideKeeps(s, u, ch, s'); }
  }

  /** No other thread's step changes what `t` holds. */
  lemma OthersSpare(s: State, a: Action, s': State, t: Tid)
    requires Inv(s) && Act(s, a, s') && !(a.Run? && a.t == t)
    ensures SameDepths(s, s', t)
  {
    if a.Run? {
      var pc := s.thr[a.t];
      if pc.MutexTable? || pc.MutexRecord? || pc.Woken? || pc.WaitMutex? || pc.Restore? {
        MutexSideSpares(s, a.t, a.ch, s');
      } else {
        OtherSideSpares(s, a.t, a.ch, s');
      }
    }
  }

  // ---- The steps of lock and unlock -------------------------------------

  /** A step of `mutex_lock` on `r`: it returns 0 and `t` holds `r` once more, or it does not and nothing changes. */
  ghost predicate LockEffect(s: State, s': State, t: Tid, r: Rid) {
    && t in s'.thr
    && (if s'.thr[t] == Ret(Code(0)) then Deeper(s, s', t, r) && s'.log == s.log + [Locked(t, r)]
        else SameDepths(s, s', t) && s'.log == s.log)
  }

  lemma RecursiveEffect(s: State, t: Tid, r: Rid)
    requires r in s.mrec && s.mrec[r].locked && s.mrec[r].owner == Some(t) && s.mrec[r].kind == Recursive
    ensures LockEffect(s, LockStep(s, t, r, Plain), t, r)
  {
    RecursiveMoves(s, t, r, Plain);
    RecursiveRecords(s, t, r, Plain);
  }

  lemma OnceEffect(s: State, t: Tid, r: Rid)
    requires r in s.mrec && s.mrec[r].locked && s.mrec[r].owner == Some(t) && s.mrec[r].kind != Recursive
    ensures LockEffect(s, LockStep(s, t, r, Plain), t, r)
  {
    OnceMoves(s, t, r, Plain);
    OnceRecords(s, t, r, Plain);
  }

  lemma OtherEffect(s: State, t: Tid, r: Rid)
    requires r in s.mrec && RecordOk(s, r, s.mrec[r]) && !(s.mrec[r].locked && s.mrec[r].owner == Some(t))
    ensures LockEffect(s, LockStep(s, t, r, Plain), t, r)
  {
    OtherMoves(s, t, r, Plain);
    OtherRecords(s, t, r, Plain);
  }

  lemma RecordLocks(s: State, t: Tid, ch: Choice, s': State, slot: U64, h: U64, r: Rid)
    requires Inv(s) && Step(s, t, ch, s') && s.thr[t] == MutexRecord(slot, h, r, ReqLock(Plain))
    ensures LockEffect(s, s', t, r)
  {
    LocksRecord(s, t, ch, s', slot, h, r, Plain);
    assert RecordOk(s, r, s.mrec[r]);
    if !(s.mrec[r].locked && s.mrec[r].owner == Some(t)) { OtherEffect(s, t, r); }
    else if s.mrec[r].kind == Recursive { RecursiveEffect(s, t, r); }
    else { OnceEffect(s, t, r); }
  }

  lemma WokenLocks(s: State, t: Tid, ch: Choice, s': State, r: Rid)
    requires Inv(s) && Step(s, t, ch, s') && s.thr[t] == Woken(r, Plain)
    ensures LockEffect(s, s', t, r)
  {
    assert RecordOk(s, r, s.mrec[r]);
    WokenEffect(s, t, r);
  }

  lemma WokenEffect(s: State, t: Tid, r: Rid)
    requires r in s.mrec && s.mrec[r].waiters > 0 && RecordOk(s, r, s.mrec[r])
    ensures LockEffect(s, WokenStep(s, t, r, Plain), t, r)
  {
    if !s.mrec[r].locked { TakeEffect(s, t, r, s.mrec[r].waiters - 1); }
  }

  lemma TakeEffect(s: State, t: Tid, r: Rid, waiters: nat)
    requires r in s.mrec && !s.mrec[r].locked && RecordOk(s, r, s.mrec[r])
    ensures LockEffect(s, Take(s, t, r, Plain, waiters), t, r)
  {
  }

  /** A slot is looked up: `mutex_lock` fails, or goes on to the record that the slot names. */
  lemma TableLocks(s: State, t: Tid, ch: Choice, s': State, slot: U64)
    requires Inv(s) && Step(s, t, ch, s') && s.thr[t] == MutexTable(slot, ReqLock(Plain))
    ensures t in s'.thr && SameDepths(s, s', t) && s'.log == s.log && s'.thr[t] != Ret(Code(0))
    ensures s'.thr[t].MutexRecord? ==> Names(s', slot, s'.thr[t].r)
  {
    TableSpares(s, t, slot, ReqLock(Plain), ch.id, ch.h);
    TableNext(s, t, slot, ReqLock(Plain), ch.id, ch.h);
  }

  /** A step of `mutex_unlock` on `r`: `t` holds `r` once less, or it is refused and nothing changes. */
  ghost predicate UnlockEffect(s: State, s': State, t: Tid, r: Rid) {
    && t in s'.thr
    && (if s'.thr[t].Ret? && s'.thr[t].res.code != 0
        then SameDepths(s, s', t) && s'.log == s.log && DepthOf(s, t, r) == 0
        else Shallower(s, s', t, r) && s'.log == s.log + [Unlocked(t, r)])
  }

  lemma RecordUnlocks(s: State, t: Tid, ch: Choice, s': State, slot: U64, h: U64, r: Rid)
    requires Inv(s) && Step(s, t, ch, s') && s.thr[t] == MutexRecord(slot, h, r, ReqUnlock)
    ensures UnlockEffect(s, s', t, r)
  {
    assert RecordOk(s, r, s.mrec[r]);
    UnlocksRecord(s, t, r);
  }

  lemma UnlocksRecord(s: State, t: Tid, r: Rid)
    requires r in s.mrec && RecordOk(s, r, s.mrec[r])
    ensures UnlockEffect(s, UnlockStep(s, t, r), t, r)
  {
    var m, s' := s.mrec[r], UnlockStep(s, t, r);
    if !m.locked || m.owner != Some(t) {
      assert s' == At(s, t, Ret(Code(EPERM)));
    } else if m.kind == Recursive && m.depth > 1 {
      assert s'.mrec == s.mrec[r := m.(depth := m.depth - 1)] && s'.thr[t] == Ret(Code(0));
    } else {
      assert s'.mrec == s.mrec[r := FreeRecord(m)] && s'.thr[t] == UnlockNotify(r);
    }
  }

  // ---- Lock calls -------------------------------------------------------

  /** The slot names `r` at some moment after `i` and no later than `n`. */
  ghost predicate NamedBy(run: seq<State>, slot: U64, i: nat, n: nat, r: Rid) {
    exists m :: i < m <= n && m < |run| && Names(run[m], slot, r)
  }

  /** `mutex_lock` has come to record `r`. */
  predicate LockingAt(pc: Pc, slot: U64, r: Rid) {
    || (pc.MutexRecord? && pc.slot == slot && pc.r == r && pc.req == ReqLock(Plain))
    || pc == Asleep(r, Plain) || pc == Woken(r, Plain)
  }

  /** A lock call is at the table, or has come to record `r`. */
  ghost predicate Locking(s: State, t: Tid, slot: U64, r: Rid) {
    t in s.thr && (s.thr[t] == MutexTable(slot, ReqLock(Plain)) || LockingAt(s.thr[t], slot, r))
  }

  /** The call goes on, with the same record or the one that the slot now names. */
  ghost predicate LockGoesOn(s: State, s': State, t: Tid, slot: U64, r: Rid, r': Rid) {
    && Locking(s', t, slot, r') && SameDepths(s, s', t)
    && (LockingAt(s'.thr[t], slot, r') ==> Names(s', slot, r')
                                           || (r' == r && t in s.thr && LockingAt(s.thr[t], slot, r)))
  }

  /** The call returns, with the record taken or not. */
  ghost predicate LockComesBack(s: State, s': State, t: Tid, slot: U64, r: Rid) {
    && t in s.thr && t in s'.thr && Coded(s'.thr[t])
    && (if s'.thr[t].res.code == 0 then LockingAt(s.thr[t], slot, r) && Deeper(s, s', t, r) else SameDepths(s, s', t))
  }

  /** One step of a thread that is locking: where it leads, and what it does to what the thread holds. */
  lemma LockingSteps(s: State, t: Tid, ch: Choice, s': State, slot: U64, r: Rid)
    requires Inv(s) && Step(s, t, ch, s') && LockingAt(s.thr[t], slot, r)
    ensures LockEffect(s, s', t, r) && (Coded(s'.thr[t]) || LockingAt(s'.thr[t], slot, r))
  {
    StepNext(s, t, ch, s');
    var pc := s.thr[t];
    if pc.MutexRecord? { RecordLocks(s, t, ch, s', slot, pc.h, r); }
    else if pc.Woken? { WokenLocks(s, t, ch, s', r); }
    else { OtherSideSpares(s, t, ch, s'); }
  }

  lemma LockOwnStep(s: State, t: Tid, ch: Choice, s': State, slot: U64, r: Rid) returns (r': Rid)
    requires Inv(s) && Step(s, t, ch, s') && Locking(s, t, slot, r)
    ensures LockGoesOn(s, s', t, slot, r, r') || (r' == r && LockComesBack(s, s', t, slot, r))
  {
    r' := r;
    if s.thr[t].MutexTable? {
      TableLocks(s, t, ch, s', slot);
      StepNext(s, t, ch, s');
      if s'.thr[t].MutexRecord? { r' := s'.thr[t].r; }
    } else {
      LockingSteps(s, t, ch, s', slot, r);
    }
  }

  lemma LockOneStep(s: State, a: Action, s': State, t: Tid, slot: U64, r: Rid) returns (r': Rid)
    requires Inv(s) && Act(s, a, s') && Locking(s, t, slot, r)
    ensures LockGoesOn(s, s', t, slot, r, r') || (r' == r && LockComesBack(s, s', t, slot, r))
  {
    r' := r;
    if a.Run? && a.t == t {
      r' := LockOwnStep(s, t, a.ch, s', slot, r);
    } else {
      OthersSpare(s, a, s', t);
      OthersLeave(s, a, s', t);
    }
  }

  lemma NamedLater(run: seq<State>, slot: U64, i: nat, n: nat, n': nat, r: Rid)
    requires NamedBy(run, slot, i, n, r) && n <= n'
    ensures NamedBy(run, slot, i, n', r)
  {
    var m :| i < m <= n && m < |run| && Names(run[m], slot, r);
  }

  lemma EntryLocks(s: State, t: Tid, ch: Choice, s': State, slot: U64)
    requires Step(s, t, ch, s') && s.thr[t].Ret? && ch.call == CallLock(slot)
    ensures t in s'.thr && SameDepths(s, s', t)
    ensures s'.thr[t] == if slot == 0 then Ret(Code(EINVAL)) else MutexTable(slot, ReqLock(Plain))
  {
    OtherSideSpares(s, t, ch, s');
  }

  lemma NamedOn(run: seq<State>, t: Tid, slot: U64, i: nat, n: nat, before: Rid, r: Rid)
    requires i < n - 1 && n < |run| && LockGoesOn(run[n - 1], run[n], t, slot, before, r) && t in run[n - 1].thr
    requires LockingAt(run[n - 1].thr[t], slot, before) ==> NamedBy(run, slot, i, n - 1, before)
    ensures LockingAt(run[n].thr[t], slot, r) ==> NamedBy(run, slot, i, n, r)
  {
    if LockingAt(run[n].thr[t], slot, r) && !Names(run[n], slot, r) { NamedLater(run, slot, i, n - 1, n, r); }
  }

  lemma DeeperSince(s0: State, s: State, s': State, t: Tid, r: Rid)
    requires SameDepths(s0, s, t)
    ensures Deeper(s, s', t, r) ==> Deeper(s0, s', t, r)
    ensures SameDepths(s, s', t) ==> SameDepths(s0, s', t)
  {
  }

  /** A lock call that has started at `i` and is not back at `n`. */
  ghost predicate LockStands(run: seq<State>, t: Tid, slot: U64, i: nat, n: nat, r: Rid) {
    && i < n < |run| && Locking(run[n], t, slot, r) && SameDepths(run[i], run[n], t)
    && (LockingAt(run[n].thr[t], slot, r) ==> NamedBy(run, slot, i, n, r))
  }

  lemma LockStandsNext(run: seq<State>, acts: seq<Action>, t: Tid, slot: U64, i: nat, n: nat, before: Rid)
    returns (r: Rid)
    requires IsRun(run, acts) && n + 1 < |run| && LockStands(run, t, slot, i, n, before) && Busy(run, t, n + 1)
    ensures LockStands(run, t, slot, i, n + 1, r)
  {
    assert StepAt(run, acts, n);
    RunsKeepInv(run, acts, n);
    r := LockOneStep(run[n], acts[n], run[n + 1], t, slot, before);
    DeeperSince(run[i], run[n], run[n + 1], t, r);
    NamedOn(run, t, slot, i, n + 1, before, r);
  }

  lemma {:induction false} LockFollowed(run: seq<State>, acts: seq<Action>, t: Tid, slot: U64, i: nat, n: nat)
    returns (r: Rid)
    requires IsRun(run, acts) && i < n < |run| && t in run[i].thr && run[i].thr[t].Ret?
             && CallsAt(acts, t, CallLock(slot), i)
    requires forall m {:trigger Busy(run, t, m)} :: i < m <= n ==> Busy(run, t, m)
    ensures LockStands(run, t, slot, i, n, r)
    decreases n
  {
    assert Busy(run, t, n);
    if n == i + 1 {
      assert StepAt(run, acts, i);
      EntryLocks(run[i], t, acts[i].ch, run[n], slot);
      r := 0;
    } else {
      r := LockFollowed(run, acts, t, slot, i, n - 1);
      r := LockStandsNext(run, acts, t, slot, i, n - 1, r);
    }
  }

  /** What a lock call comes to: it returns 0 and the thread holds, once more than before, a record that the slot named
      during the call; or it returns an error and the thread holds what it held. */
  ghost predicate LockResult(run: seq<State>, t: Tid, slot: U64, i: nat, j: nat)
    requires i < |run| && j < |run| && t in run[j].thr && run[j].thr[t].Ret?
  {
    && run[j].thr[t].res.Code?
    && (if run[j].thr[t].res.code == 0 then exists r :: NamedBy(run, slot, i, j, r) && Deeper(run[i], run[j], t, r)
        else SameDepths(run[i], run[j], t))
  }

  lemma LockEnds(run: seq<State>, acts: seq<Action>, t: Tid, slot: U64, i: nat, n: nat, j: nat, r: Rid)
    requires IsRun(run, acts) && j == n + 1 < |run| && LockStands(run, t, slot, i, n, r) && t in run[j].thr
             && run[j].thr[t].Ret? && Busy(run, t, n)
    ensures LockResult(run, t, slot, i, j)
  {
    assert StepAt(run, acts, n);
    RunsKeepInv(run, acts, n);
    var r' := LockOneStep(run[n], acts[n], run[j], t, slot, r);
    DeeperSince(run[i], run[n], run[j], t, r);
    if LockingAt(run[n].thr[t], slot, r) { NamedLater(run, slot, i, n, j, r); }
  }

  /** A lock call returns 0 exactly when it has taken the mutex. */
  lemma LockCall(run: seq<State>, acts: seq<Action>, t: Tid, slot: U64, i: nat, j: nat)
    requires IsRun(run, acts) && Calls(run, acts, t, CallLock(slot), i, j)
    ensures LockResult(run, t, slot, i, j)
  {
    var n: nat := j - 1;
    if n == i {
      assert StepAt(run, acts, n);
      EntryLocks(run[i], t, acts[i].ch, run[j], slot);
    } else {
      var r := LockFollowed(run, acts, t, slot, i, n);
      LockEnds(run, acts, t, slot, i, n, j, r);
    }
  }

  /** `t` has been told, in this step, that it holds `r`, and does. */
  ghost predicate ToldLocked(s: State, s': State, t: Tid, r: Rid) {
    r in s'.mrec && s'.mrec[r].owner == Some(t) && s'.log == s.log + [Locked(t, r)]
  }

  /** The step in which a lock returns: it returns 0 exactly when the thread holds a mutex that the history says it was
      given in this very step; any other code leaves the history and what the thread holds as they were. */
  lemma LockReturn(s: State, t: Tid, ch: Choice, s': State, slot: U64)
    requires Reachable(s) && Step(s, t, ch, s') && Within(CallLock(slot), s.thr[t]) && !s.thr[t].Ret?
    requires t in s'.thr && s'.thr[t].Ret?
    ensures s'.thr[t].res.Code?
    ensures s'.thr[t].res.code == 0 <==> exists r :: ToldLocked(s, s', t, r)
    ensures s'.thr[t].res.code != 0 ==> s'.log == s.log && SameDepths(s, s', t)
  {
    ReachableInv(s);
    StepNext(s, t, ch, s');
    if s.thr[t].MutexTable? {
      TableLocks(s, t, ch, s', slot);
    } else {
      LockingSteps(s, t, ch, s', slot, s.thr[t].r);
      if s'.thr[t].res.code == 0 { assert ToldLocked(s, s', t, s.thr[t].r); }
    }
  }

  // ---- Unlock calls -----------------------------------------------------

  /** An unlock call has not come to its record, has come to `r`, or has given `r` up and has yet to notify. */
  ghost predicate UnlockStands(run: seq<State>, t: Tid, slot: U64, i: nat, n: nat, r: Rid) {
    && i < n < |run| && t in run[n].thr
    && var pc := run[n].thr[t];
       || (pc == MutexTable(slot, ReqUnlock) && SameDepths(run[i], run[n], t))
       || (pc.MutexRecord? && pc.req == ReqUnlock && pc.r == r && SameDepths(run[i], run[n], t)
           && NamedBy(run, slot, i, n, r))
       || (pc == UnlockNotify(r) && Shallower(run[i], run[n], t, r) && NamedBy(run, slot, i, n, r))
  }

  lemma TableUnlocks(s: State, t: Tid, ch: Choice, s': State, slot: U64)
    requires Inv(s) && Step(s, t, ch, s') && s.thr[t] == MutexTable(slot, ReqUnlock)
    ensures t in s'.thr && SameDepths(s, s', t)
    ensures (Coded(s'.thr[t]) && s'.thr[t].res.code != 0)
            || (s'.thr[t].MutexRecord? && s'.thr[t].req == ReqUnlock && Names(s', slot, s'.thr[t].r))
  {
    TableSpares(s, t, slot, ReqUnlock, ch.id, ch.h);
    TableNext(s, t, slot, ReqUnlock, ch.id, ch.h);
    LookUnlocks(s, slot);
  }

  lemma LookUnlocks(s: State, slot: U64)
    ensures var look := LookMutex(s, slot, false); look.Hit? || (look.Miss? && look.code != 0)
    ensures LookMutex(s, slot, false).Hit? ==> Names(s, slot, LookMutex(s, slot, false).id)
  {
  }

  /** What the next state of an unlock call is, or what the call returns. */
  ghost predicate UnlockGoes(s: State, s': State, t: Tid, slot: U64, r: Rid, r': Rid) {
    && t in s.thr && t in s'.thr
    && var pc, pc' := s.thr[t], s'.thr[t];
       || (pc' == pc && SameDepths(s, s', t) && r' == r)
       || (pc == MutexTable(slot, ReqUnlock) && SameDepths(s, s', t)
           && ((Coded(pc') && pc'.res.code != 0)
               || (pc'.MutexRecord? && pc'.req == ReqUnlock && pc'.r == r' && Names(s', slot, r'))))
       || (pc.MutexRecord? && pc.req == ReqUnlock && pc.r == r == r'
           && ((Coded(pc') && pc'.res.code != 0 && SameDepths(s, s', t))
               || ((pc' == Ret(Code(0)) || pc' == UnlockNotify(r)) && Shallower(s, s', t, r))))
       || (pc == UnlockNotify(r) && r' == r && pc' == Ret(Code(0)) && SameDepths(s, s', t))
  }

  lemma UnlockOwnStep(s: State, t: Tid, ch: Choice, s': State, slot: U64, r: Rid) returns (r': Rid)
    requires Inv(s) && Step(s, t, ch, s')
    requires s.thr[t] == MutexTable(slot, ReqUnlock)
             || (s.thr[t].MutexRecord? && s.thr[t].req == ReqUnlock && s.thr[t].r == r) || s.thr[t] == UnlockNotify(r)
    ensures UnlockGoes(s, s', t, slot, r, r')
  {
    r' := r;
    var pc := s.thr[t];
    if pc.MutexTable? {
      TableUnlocks(s, t, ch, s', slot);
      if s'.thr[t].MutexRecord? { r' := s'.thr[t].r; }
    } else if pc.MutexRecord? {
      StepNext(s, t, ch, s');
      RecordUnlocks(s, t, ch, s', pc.slot, pc.h, r);
    } else {
      StepNext(s, t, ch, s');
      OtherSideSpares(s, t, ch, s');
    }
  }

  lemma UnlockOneStep(s: State, a: Action, s': State, t: Tid, slot: U64, r: Rid) returns (r': Rid)
    requires Inv(s) && Act(s, a, s') && t in s.thr
    requires s.thr[t] == MutexTable(slot, ReqUnlock)
             || (s.thr[t].MutexRecord? && s.thr[t].req == ReqUnlock && s.thr[t].r == r) || s.thr[t] == UnlockNotify(r)
    ensures UnlockGoes(s, s', t, slot, r, r')
  {
    r' := r;
    if a.Run? && a.t == t {
      r' := UnlockOwnStep(s, t, a.ch, s', slot, r);
    } else {
      OthersSpare(s, a, s', t);
      OthersLeave(s, a, s', t);
    }
  }

  lemma ShallowerSince(s0: State, s: State, s': State, t: Tid, r: Rid)
    ensures SameDepths(s0, s, t) && Shallower(s, s', t, r) ==> Shallower(s0, s', t, r)
    ensures SameDepths(s0, s, t) && SameDepths(s, s', t) ==> SameDepths(s0, s', t)
    ensures Shallower(s0, s, t, r) && SameDepths(s, s', t) ==> Shallower(s0, s', t, r)
  {
  }

  lemma UnlockStandsNext(run: seq<State>, acts: seq<Action>, t: Tid, slot: U64, i: nat, n: nat, before: Rid)
    returns (r: Rid)
    requires IsRun(run, acts) && n + 1 < |run| && UnlockStands(run, t, slot, i, n, before)
    ensures t in run[n + 1].thr
    ensures !run[n + 1].thr[t].Ret? ==> UnlockStands(run, t, slot, i, n + 1, r)
    ensures run[n + 1].thr[t].Ret? ==> UnlockResult(run, t, slot, i, n + 1)
  {
    assert StepAt(run, acts, n);
    RunsKeepInv(run, acts, n);
    r := UnlockOneStep(run[n], acts[n], run[n + 1], t, slot, before);
    UnlockLands(run, t, slot, i, n, before, r);
  }

  lemma UnlockLands(run: seq<State>, t: Tid, slot: U64, i: nat, n: nat, before: Rid, r: Rid)
    requires n + 1 < |run| && UnlockStands(run, t, slot, i, n, before)
    requires UnlockGoes(run[n], run[n + 1], t, slot, before, r)
    ensures !run[n + 1].thr[t].Ret? ==> UnlockStands(run, t, slot, i, n + 1, r)
    ensures run[n + 1].thr[t].Ret? ==> UnlockResult(run, t, slot, i, n + 1)
  {
    ShallowerSince(run[i], run[n], run[n + 1], t, before);
    if NamedBy(run, slot, i, n, before) { NamedLater(run, slot, i, n, n + 1, before); }
  }

  /** What an unlock call comes to: it returns 0 and the thread holds, once less than before, a record that the slot
      named during the call; or it returns an error and the thread holds what it held. */
  ghost predicate UnlockResult(run: seq<State>, t: Tid, slot: U64, i: nat, j: nat)
    requires i < |run| && j < |run| && t in run[j].thr && run[j].thr[t].Ret?
  {
    && run[j].thr[t].res.Code?
    && (if run[j].thr[t].res.code == 0 then exists r :: NamedBy(run, slot, i, j, r) && Shallower(run[i], run[j], t, r)
        else SameDepths(run[i], run[j], t))
  }

  lemma {:induction false} UnlockFollowed(run: seq<State>, acts: seq<Action>, t: Tid, slot: U64, i: nat, n: nat)
    returns (r: Rid)
    requires IsRun(run, acts) && i < n < |run| && t in run[i].thr && run[i].thr[t].Ret?
             && CallsAt(acts, t, CallUnlock(slot), i)
    requires forall m {:trigger Busy(run, t, m)} :: i < m < n ==> Busy(run, t, m)
    ensures t in run[n].thr
    ensures !run[n].thr[t].Ret? ==> UnlockStands(run, t, slot, i, n, r)
    ensures run[n].thr[t].Ret? ==> UnlockResult(run, t, slot, i, n)
    decreases n
  {
    if n == i + 1 {
      assert StepAt(run, acts, i);
      EntryUnlocks(run[i], t, acts[i].ch, run[n], slot);
      r := 0;
    } else {
      assert Busy(run, t, n - 1);
      r := UnlockFollowed(run, acts, t, slot, i, n - 1);
      r := UnlockStandsNext(run, acts, t, slot, i, n - 1, r);
    }
  }

  lemma EntryUnlocks(s: State, t: Tid, ch: Choice, s': State, slot: U64)
    requires Step(s, t, ch, s') && s.thr[t].Ret? && ch.call == CallUnlock(slot)
    ensures t in s'.thr && SameDepths(s, s', t)
    ensures s'.thr[t] == if slot == 0 then Ret(Code(EINVAL)) else MutexTable(slot, ReqUnlock)
  {
    OtherSideSpares(s, t, ch, s');
  }

  /** An unlock call returns 0 exactly when it has given the mutex up once. */
  lemma UnlockCall(run: seq<State>, acts: seq<Action>, t: Tid, slot: U64, i: nat, j: nat)
    requires IsRun(run, acts) && Calls(run, acts, t, CallUnlock(slot), i, j)
    ensures UnlockResult(run, t, slot, i, j)
  {
    var r := UnlockFollowed(run, acts, t, slot, i, j);
  }
}
