/** Whole condition waits and whole broadcasts, followed through a run of the mutex and condition machine. */
module SyncRuns {
  import opened Base
  import opened Sync
  import opened SyncSteps
  import opened SyncProof
  import opened SyncTheorems

  // ---- What the other threads' steps do to a thread ----------------------

  /** A thread that does not step stays where it is, unless it sleeps and is woken. */
  ghost predicate LeftAlone(pc: Pc, pc': Pc) {
    || pc' == pc
    || (pc.Asleep? && pc' == Woken(pc.r, pc.k))
    || (pc.TokenAsleep? && pc' == TokenWoken(pc.w, pc.timed, false))
  }

  /** Thread `t` stays put. */
  ghost predicate Stays(s: State, s': State, t: Tid) { t in s.thr && t in s'.thr && s'.thr[t] == s.thr[t] }

  lemma LookedStays(s: State, u: Tid, slot: U64, req: MutexReq, look: Look, r: Rid, h: U64, t: Tid)
    requires t in s.thr && t != u
    ensures Stays(s, Looked(s, u, slot, req, look, r, h), t)
  {
  }

  lemma MutexTableStays(s: State, u: Tid, slot: U64, req: MutexReq, r: Rid, h: U64, t: Tid)
    requires t in s.thr && t != u
    ensures Stays(s, MutexTableStep(s, u, slot, req, r, h), t)
  {
    if !req.ReqInit? && !req.ReqDestroy? { LookedStays(s, u, slot, req, LookMutex(s, slot, !req.ReqUnlock?), r, h, t); }
  }

  lemma LockStays(s: State, u: Tid, r: Rid, k: Cont, t: Tid)
    requires r in s.mrec && t in s.thr && t != u
    ensures Stays(s, LockStep(s, u, r, k), t)
  {
  }

  lemma UnlockStays(s: State, u: Tid, slot: U64, h: U64, r: Rid, t: Tid)
    requires r in s.mrec && t in s.thr && t != u
    ensures Stays(s, UnlockStep(s, u, r), t) && Stays(s, DestroyStep(s, u, slot, h, r), t)
  {
  }

  lemma WokenStays(s: State, u: Tid, r: Rid, k: Cont, t: Tid)
    requires r in s.mrec && s.mrec[r].waiters > 0 && t in s.thr && t != u
    ensures Stays(s, WokenStep(s, u, r, k), t)
  {
  }

  lemma CondLookStays(s: State, u: Tid, slot: U64, req: CondReq, c: Cid, h: U64, t: Tid)
    requires t in s.thr && t != u && !req.ReqCondInit? && !req.ReqCondDestroy? && !req.ReqExpire?
    ensures Stays(s, CondTableStep(s, u, slot, req, c, h), t)
  {
  }

  lemma CondTableStays(s: State, u: Tid, slot: U64, req: CondReq, c: Cid, h: U64, t: Tid)
    requires t in s.thr && t != u
    ensures Stays(s, CondTableStep(s, u, slot, req, c, h), t)
  {
    match req
    case ReqCondInit =>
    case ReqCondDestroy =>
    case ReqExpire(_) =>
    case _ => CondLookStays(s, u, slot, req, c, h, t);
  }

  lemma CondRecordStays(s: State, u: Tid, slot: U64, h: U64, c: Cid, req: CondReq, t: Tid)
    requires c in s.crec && t in s.thr && t != u
    ensures Stays(s, CondRecordStep(s, u, slot, h, c, req), t)
  {
  }

  lemma WaitMutexStays(s: State, u: Tid, c: Cid, m: Rid, slot: U64, timed: bool, k: Kid, t: Tid)
    requires c in s.crec && m in s.mrec && t in s.thr && t != u
    ensures Stays(s, WaitMutexStep(s, u, c, m, slot, timed, k), t)
  {
  }

  lemma TokenStays(s: State, u: Tid, w: Wait, timed: bool, expired: bool, t: Tid)
    requires w.k in s.tok && t in s.thr && t != u
    ensures Stays(s, TokenStep(s, u, w, timed, expired), t)
  {
  }

  lemma ExpireStays(s: State, u: Tid, w: Wait, t: Tid)
    requires w.k in s.tok && w.c in s.crec && t in s.thr && t != u
    ensures Stays(s, ExpireStep(s, u, w), t)
  {
  }

  lemma RestoreStays(s: State, u: Tid, w: Wait, got: Rid, t: Tid)
    requires w.m in s.mrec && t in s.thr && t != u
    ensures Stays(s, RestoreStep(s, u, w, got), t)
  {
  }

  lemma MarkStays(s: State, u: Tid, c: Cid, k: Kid, marked: seq<Kid>, all: seq<Kid>, t: Tid)
    requires c in s.crec && s.crec[c].queue != [] && k in s.tok && t in s.thr && t != u
    ensures Stays(s, SignalStep(s, u, c, k), t) && Stays(s, BroadcastStep(s, u, c, k, marked, all), t)
  {
  }

  lemma MutexNotifyLeaves(s: State, u: Tid, r: Rid, v: Option<Tid>, pc: Pc, t: Tid)
    requires t in s.thr && t != u
    ensures var s' := At(NotifyMutex(s, r, v), u, pc); t in s'.thr && LeftAlone(s.thr[t], s'.thr[t])
  {
  }

  lemma TokenNotifyLeaves(s: State, u: Tid, pending: seq<Kid>, t: Tid)
    requires t in s.thr && t != u && pending != []
    ensures var s' := NotifyTokensStep(s, u, pending); t in s'.thr && LeftAlone(s.thr[t], s'.thr[t])
  {
  }

  lemma MutexSideLeaves(s: State, u: Tid, ch: Choice, s': State, t: Tid)
    requires Step(s, u, ch, s') && t in s.thr && t != u
    requires s.thr[u].Ret? || s.thr[u].MutexTable? || s.thr[u].MutexRecord? || s.thr[u].Asleep? || s.thr[u].Woken?
    ensures t in s'.thr && LeftAlone(s.thr[t], s'.thr[t])
  {
    match s.thr[u]
    case Ret(_) =>
    case MutexTable(slot, req) => MutexTableStays(s, u, slot, req, ch.id, ch.h, t);
    case MutexRecord(slot, h, r, req) =>
      LockStays(s, u, r, if req.ReqLock? then req.k else Plain, t);
      UnlockStays(s, u, slot, h, r, t);
    case Asleep(r, k) =>
    case Woken(r, k) => WokenStays(s, u, r, k, t);
  }

  lemma NotifiersLeave(s: State, u: Tid, ch: Choice, s': State, t: Tid)
    requires Step(s, u, ch, s') && t in s.thr && t != u
    requires s.thr[u].UnlockNotify? || s.thr[u].WaitNotify? || s.thr[u].NotifyTokens?
    ensures t in s'.thr && LeftAlone(s.thr[t], s'.thr[t])
  {
    match s.thr[u]
    case UnlockNotify(r) => MutexNotifyLeaves(s, u, r, ch.pick, Ret(Code(0)), t);
    case WaitNotify(w, timed) => MutexNotifyLeaves(s, u, w.m, ch.pick, TokenCheck(w, timed), t);
    case NotifyTokens(pending) => TokenNotifyLeaves(s, u, pending, t);
  }

  lemma CondSideLeaves(s: State, u: Tid, ch: Choice, s': State, t: Tid)
    requires Step(s, u, ch, s') && t in s.thr && t != u && ThreadOk(s, u, s.thr[u])
    requires s.thr[u].CondTable? || s.thr[u].CondRecord? || s.thr[u].WaitMutex? || s.thr[u].SignalToken?
             || s.thr[u].BroadcastToken?
    ensures t in s'.thr && LeftAlone(s.thr[t], s'.thr[t])
  {
    match s.thr[u]
    case CondTable(slot, req) => CondTableStays(s, u, slot, req, ch.id, ch.h, t);
    case CondRecord(slot, h, c, req) => CondRecordStays(s, u, slot, h, c, req, t);
    case WaitMutex(c, m, slot, timed) => WaitMutexStays(s, u, c, m, slot, timed, ch.k, t);
    case SignalToken(c, k) => MarkStays(s, u, c, k, [], [], t);
    case BroadcastToken(c, k, marked, all) => MarkStays(s, u, c, k, marked, all, t);
  }

  lemma WaitSideLeaves(s: State, u: Tid, ch: Choice, s': State, t: Tid)
    requires Step(s, u, ch, s') && t in s.thr && t != u
    requires s.thr[u].TokenCheck? || s.thr[u].TokenAsleep? || s.thr[u].TokenWoken? || s.thr[u].ExpireToken?
             || s.thr[u].Restore?
    ensures t in s'.thr && LeftAlone(s.thr[t], s'.thr[t])
  {
    match s.thr[u]
    case TokenCheck(w, timed) => TokenStays(s, u, w, timed, false, t);
    case TokenAsleep(w, timed) =>
    case TokenWoken(w, timed, expired) => TokenStays(s, u, w, timed, expired, t);
    case ExpireToken(w) => ExpireStays(s, u, w, t);
    case Restore(w, got) => RestoreStays(s, u, w, got, t);
  }

  lemma OthersLeave(s: State, a: Action, s': State, t: Tid)
    requires Inv(s) && Act(s, a, s') && t in s.thr && !(a.Run? && a.t == t)
    ensures t in s'.thr && LeftAlone(s.thr[t], s'.thr[t])
  {
    if a.Run? {
      var pc := s.thr[a.t];
      assert ThreadOk(s, a.t, pc);
      if pc.Ret? || pc.MutexTable? || pc.MutexRecord? || pc.Asleep? || pc.Woken? {
        MutexSideLeaves(s, a.t, a.ch, s', t);
      } else if pc.UnlockNotify? || pc.WaitNotify? || pc.NotifyTokens? {
        NotifiersLeave(s, a.t, a.ch, s', t);
      } else if pc.TokenCheck? || pc.TokenAsleep? || pc.TokenWoken? || pc.ExpireToken? || pc.Restore? {
        WaitSideLeaves(s, a.t, a.ch, s', t);
      } else {
        CondSideLeaves(s, a.t, a.ch, s', t);
      }
    }
  }

  // ---- A condition wait -------------------------------------------------

  /** The same wait; only its verdict may differ. */
  predicate SameWait(v: Wait, w: Wait) { v.(timedOut := w.timedOut) == w }

  /** Not yet back at the mutex. */
  predicate Away(pc: Pc, w: Wait) {
    || (pc.WaitNotify? && pc.w == w)
    || (pc.TokenCheck? && pc.w == w)
    || (pc.TokenAsleep? && pc.w == w)
    || (pc.TokenWoken? && pc.w == w)
    || (pc.CondTable? && pc.creq == ReqExpire(w))
    || (pc.CondRecord? && pc.creq == ReqExpire(w))
    || (pc.ExpireToken? && pc.w == w)
  }

  /** About to look up the mutex slot again. */
  predicate Rejoining(pc: Pc, w: Wait) {
    pc.MutexTable? && pc.slot == w.slot && pc.req.ReqLock? && pc.req.k.Rewait? && SameWait(pc.req.k.w, w)
  }

  predicate IsRewait(k: Cont, w: Wait) { k.Rewait? && SameWait(k.w, w) }

  /** Taking, or holding again, the mutex `r` that the slot named. */
  predicate Back(pc: Pc, w: Wait, r: Rid) {
    || (pc.MutexRecord? && pc.r == r && pc.req.ReqLock? && IsRewait(pc.req.k, w))
    || (pc.Asleep? && pc.r == r && IsRewait(pc.k, w))
    || (pc.Woken? && pc.r == r && IsRewait(pc.k, w))
    || (pc.Restore? && pc.got == r && SameWait(pc.w, w))
    || (pc.Ret? && pc.res.WaitDone? && pc.res.got == r && SameWait(pc.res.w, w))
  }

  predicate Failed(pc: Pc, w: Wait) { pc.Ret? && pc.res.WaitFailed? && SameWait(pc.res.w, w) }

  /** The slot names the mutex record `r`. */
  predicate Names(s: State, slot: U64, r: Rid) { slot in s.mem && s.mem[slot] in s.mtab && s.mtab[s.mem[slot]] == r }

  lemma AwayPcs(w: Wait, timed: bool, expired: bool)
    ensures Away(TokenCheck(w, timed), w) && Away(TokenAsleep(w, timed), w) && Away(TokenWoken(w, timed, expired), w)
    ensures Away(CondTable(0, ReqExpire(w)), w) && Away(ExpireToken(w), w)
    ensures Rejoining(Rejoin(w, false), w) && Rejoining(Rejoin(w, true), w)
  {
  }

  lemma TokenMoves(s: State, t: Tid, w: Wait, timed: bool, expired: bool)
    requires w.k in s.tok
    ensures var pc := TokenStep(s, t, w, timed, expired).thr[t]; Away(pc, w) || Rejoining(pc, w)
  {
    AwayPcs(w, timed, false);
  }

  lemma ExpireMoves(s: State, t: Tid, w: Wait)
    requires w.k in s.tok && w.c in s.crec
    ensures Rejoining(ExpireStep(s, t, w).thr[t], w)
  {
    AwayPcs(w, false, false);
  }

  lemma CheckSteps(s: State, t: Tid, ch: Choice, s': State, w: Wait, timed: bool)
    requires Step(s, t, ch, s') && s.thr[t] == TokenCheck(w, timed)
    ensures t in s'.thr && (Away(s'.thr[t], w) || Rejoining(s'.thr[t], w))
  {
    TokenMoves(s, t, w, timed, false);
  }

  lemma RecheckSteps(s: State, t: Tid, ch: Choice, s': State, w: Wait, timed: bool, expired: bool)
    requires Step(s, t, ch, s') && s.thr[t] == TokenWoken(w, timed, expired)
    ensures t in s'.thr && (Away(s'.thr[t], w) || Rejoining(s'.thr[t], w))
  {
    TokenMoves(s, t, w, timed, expired);
  }

  lemma ExpireSteps(s: State, t: Tid, ch: Choice, s': State, w: Wait)
    requires Step(s, t, ch, s') && s.thr[t] == ExpireToken(w)
    ensures t in s'.thr && Rejoining(s'.thr[t], w)
  {
    ExpireMoves(s, t, w);
  }

  lemma OtherAwaySteps(s: State, t: Tid, ch: Choice, s': State, w: Wait)
    requires Step(s, t, ch, s') && Away(s.thr[t], w)
    requires s.thr[t].WaitNotify? || s.thr[t].TokenAsleep? || s.thr[t].CondTable? || s.thr[t].CondRecord?
    ensures t in s'.thr && Away(s'.thr[t], w)
  {
    match s.thr[t]
    case WaitNotify(_, timed) => AwayPcs(w, timed, false);
    case TokenAsleep(_, timed) => AwayPcs(w, timed, timed && ch.expire);
    case CondTable(slot, _) => assert s'.thr[t] == CondRecord(slot, 0, w.c, ReqExpire(w));
    case CondRecord(_, _, _, _) => AwayPcs(w, false, false);
  }

  lemma AwaySteps(s: State, t: Tid, ch: Choice, s': State, w: Wait)
    requires Step(s, t, ch, s') && Away(s.thr[t], w)
    ensures t in s'.thr && (Away(s'.thr[t], w) || Rejoining(s'.thr[t], w))
  {
    var pc := s.thr[t];
    if pc.TokenCheck? {
      CheckSteps(s, t, ch, s', w, pc.timed);
    } else if pc.TokenWoken? {
      RecheckSteps(s, t, ch, s', w, pc.timed, pc.expired);
    } else if pc.ExpireToken? {
      ExpireSteps(s, t, ch, s', w);
    } else {
      OtherAwaySteps(s, t, ch, s', w);
    }
  }

  lemma RejoinSteps(s: State, t: Tid, ch: Choice, s': State, w: Wait)
    requires Tables(s) && Step(s, t, ch, s') && Rejoining(s.thr[t], w) && w.m in s.mrec
    ensures Failed(s'.thr[t], w) || exists r :: Back(s'.thr[t], w, r)
    ensures Failed(s'.thr[t], w) ==> !Names(s, w.slot, w.m)
    ensures forall r :: Back(s'.thr[t], w, r) ==> (r == w.m <==> Names(s, w.slot, w.m))
  {
    if s'.thr[t].MutexRecord? { assert Back(s'.thr[t], w, s'.thr[t].r); }
  }

  lemma TakeMoves(w: Wait, v: Wait, r: Rid)
    requires SameWait(v, w)
    ensures Back(LockReturns(r, Rewait(v)), w, r) && Back(Asleep(r, Rewait(v)), w, r) && Back(Woken(r, Rewait(v)), w, r)
    ensures forall code :: Failed(LockFails(Rewait(v), code), w)
  {
  }

  /** Where `mutex_lock` can leave its caller; it refuses only an owner. */
  ghost predicate LockedPc(pc: Pc, r: Rid, k: Cont, owner: bool) {
    pc == LockReturns(r, k) || pc == Asleep(r, k)
    || (owner && (pc == LockFails(k, EAGAIN) || pc == LockFails(k, EDEADLK)))
  }

  lemma RecursiveMoves(s: State, t: Tid, r: Rid, k: Cont)
    requires r in s.mrec && s.mrec[r].locked && s.mrec[r].owner == Some(t) && s.mrec[r].kind == Recursive
    ensures LockStep(s, t, r, k).thr[t] == if s.mrec[r].depth == DEPTH_MAX then LockFails(k, EAGAIN)
                                           else LockReturns(r, k)
  {
  }

  lemma OnceMoves(s: State, t: Tid, r: Rid, k: Cont)
    requires r in s.mrec && s.mrec[r].locked && s.mrec[r].owner == Some(t) && s.mrec[r].kind != Recursive
    ensures LockStep(s, t, r, k).thr[t] == if s.mrec[r].kind == Normal then Asleep(r, k) else LockFails(k, EDEADLK)
  {
  }

  lemma OtherMoves(s: State, t: Tid, r: Rid, k: Cont)
    requires r in s.mrec && !(s.mrec[r].locked && s.mrec[r].owner == Some(t))
    ensures LockStep(s, t, r, k).thr[t] == if s.mrec[r].locked then Asleep(r, k) else LockReturns(r, k)
  {
  }

  lemma LockMoves(s: State, t: Tid, r: Rid, k: Cont)
    requires r in s.mrec
    ensures LockedPc(LockStep(s, t, r, k).thr[t], r, k, s.mrec[r].locked && s.mrec[r].owner == Some(t))
  {
    if !(s.mrec[r].locked && s.mrec[r].owner == Some(t)) { OtherMoves(s, t, r, k); }
    else if s.mrec[r].kind == Recursive { RecursiveMoves(s, t, r, k); }
    else { OnceMoves(s, t, r, k); }
  }

  lemma LockedLands(pc: Pc, w: Wait, v: Wait, r: Rid, owner: bool)
    requires SameWait(v, w) && LockedPc(pc, r, Rewait(v), owner) && (owner ==> r != w.m)
    ensures Back(pc, w, r) || (Failed(pc, w) && r != w.m)
  {
    TakeMoves(w, v, r);
  }

  lemma LocksRecord(s: State, t: Tid, ch: Choice, s': State, slot: U64, h: U64, r: Rid, k: Cont)
    requires Step(s, t, ch, s') && s.thr[t] == MutexRecord(slot, h, r, ReqLock(k))
    ensures r in s.mrec && s' == LockStep(s, t, r, k)
  {
  }

  lemma RecordSteps(s: State, t: Tid, ch: Choice, s': State, slot: U64, h: U64, r: Rid, k: Cont)
    requires Step(s, t, ch, s') && s.thr[t] == MutexRecord(slot, h, r, ReqLock(k))
    ensures r in s.mrec && t in s'.thr && LockedPc(s'.thr[t], r, k, s.mrec[r].locked && s.mrec[r].owner == Some(t))
  {
    LocksRecord(s, t, ch, s', slot, h, r, k);
    LockMoves(s, t, r, k);
  }

  lemma SleepSteps(s: State, t: Tid, ch: Choice, s': State, w: Wait, r: Rid)
    requires Step(s, t, ch, s') && Back(s.thr[t], w, r) && (s.thr[t].Asleep? || s.thr[t].Woken?)
    ensures t in s'.thr && Back(s'.thr[t], w, r)
  {
    TakeMoves(w, s.thr[t].k.w, r);
  }

  lemma RestoringSteps(s: State, t: Tid, ch: Choice, s': State, w: Wait, r: Rid)
    requires Step(s, t, ch, s') && Back(s.thr[t], w, r) && s.thr[t].Restore?
    ensures t in s'.thr && Back(s'.thr[t], w, r)
  {
  }

  /** The wait does not own the mutex that it has released. */
  lemma NotOwner(s: State, t: Tid, w: Wait)
    requires t in s.thr && WaitOk(s, t, s.thr[t]) && s.thr[t].MutexRecord? && Back(s.thr[t], w, w.m)
    ensures w.m in s.mrec && s.mrec[w.m].owner != Some(t)
  {
  }

  lemma BackSteps(s: State, t: Tid, ch: Choice, s': State, w: Wait, r: Rid)
    requires Step(s, t, ch, s') && WaitOk(s, t, s.thr[t]) && Back(s.thr[t], w, r) && !s.thr[t].Ret?
    ensures t in s'.thr && (Back(s'.thr[t], w, r) || (Failed(s'.thr[t], w) && r != w.m))
  {
    if s.thr[t].Restore? {
      RestoringSteps(s, t, ch, s', w, r);
    } else if s.thr[t].MutexRecord? {
      if r == w.m { NotOwner(s, t, w); }
      RecordSteps(s, t, ch, s', s.thr[t].slot, s.thr[t].h, r, s.thr[t].req.k);
      LockedLands(s'.thr[t], w, s.thr[t].req.k.w, r, s.mrec[r].locked && s.mrec[r].owner == Some(t));
    } else {
      SleepSteps(s, t, ch, s', w, r);
    }
  }

  lemma WaitLeftAlone(pc: Pc, pc': Pc, w: Wait)
    requires LeftAlone(pc, pc')
    ensures Away(pc, w) ==> Away(pc', w)
    ensures Rejoining(pc, w) ==> Rejoining(pc', w)
    ensures forall r :: Back(pc, w, r) ==> Back(pc', w, r)
  {
  }

  /** Step `n` of the run is the one in which thread `t`, in wait `w`, looks up its mutex slot again. */
  ghost predicate Rejoins(run: seq<State>, acts: seq<Action>, n: nat, t: Tid, w: Wait) {
    n < |acts| && n < |run| && acts[n].Run? && acts[n].t == t && t in run[n].thr && Rejoining(run[n].thr[t], w)
  }

  /** Where thread `t` stands in wait `w` at state `j`: away, about to rejoin, back at the mutex named at step `n`, or
      refused because the slot did not name the released mutex then. */
  ghost predicate Stands(run: seq<State>, acts: seq<Action>, t: Tid, w: Wait, i: nat, j: nat, n: nat, r: Rid)
    requires j < |run|
  {
    t in run[j].thr && var pc := run[j].thr[t];
    || Away(pc, w) || Rejoining(pc, w)
    || (i < n < j && Rejoins(run, acts, n, t, w)
        && ((Back(pc, w, r) && (r == w.m <==> Names(run[n], w.slot, w.m)))
            || (Failed(pc, w) && !Names(run[n], w.slot, w.m))))
  }

  lemma StandsNext(run: seq<State>, acts: seq<Action>, t: Tid, w: Wait, i: nat, j: nat, n: nat, r: Rid)
    returns (n': nat, r': Rid)
    requires IsRun(run, acts) && i < j < |acts| && Stands(run, acts, t, w, i, j, n, r) && !run[j].thr[t].Ret?
    ensures Stands(run, acts, t, w, i, j + 1, n', r')
  {
    var s, a, s' := run[j], acts[j], run[j + 1];
    RunsKeepInv(run, acts, j);
    n', r' := n, r;
    assert StepAt(run, acts, j) && WaitOk(s, t, s.thr[t]);
    if !(a.Run? && a.t == t) {
      OthersLeave(s, a, s', t);
      WaitLeftAlone(s.thr[t], s'.thr[t], w);
    } else if Away(s.thr[t], w) {
      AwaySteps(s, t, a.ch, s', w);
    } else if Rejoining(s.thr[t], w) {
      n' := j;
      RejoinSteps(s, t, a.ch, s', w);
      if !Failed(s'.thr[t], w) { r' :| Back(s'.thr[t], w, r'); }
    } else {
      BackSteps(s, t, a.ch, s', w, r);
    }
  }

  lemma {:induction false} WaitFollowed(run: seq<State>, acts: seq<Action>, t: Tid, w: Wait, timed: bool, i: nat,
                                        j: nat)
    returns (n: nat, r: Rid)
    requires IsRun(run, acts) && i < j < |run| && t in run[i + 1].thr && run[i + 1].thr[t] == WaitNotify(w, timed)
    requires forall x :: i < x < j && t in run[x].thr ==> !run[x].thr[t].Ret?
    ensures Stands(run, acts, t, w, i, j, n, r)
    decreases j
  {
    n, r := 0, 0;
    if j > i + 1 {
      n, r := WaitFollowed(run, acts, t, w, timed, i, j - 1);
      n, r := StandsNext(run, acts, t, w, i, j - 1, n, r);
    }
  }

  /**
   A whole condition wait, from step `i`, which releases the mutex, to state `j`, in which it has returned: there is a
   step `n` between at which it looked its slot up again. If the slot named the released mutex then, the wait returns 0
   or ETIMEDOUT, and its caller holds that mutex again at the depth it had on entry. It ends holding that mutex only
   then.
   */
  lemma WaitRestoresMutex(run: seq<State>, acts: seq<Action>, t: Tid, w: Wait, timed: bool, i: nat, j: nat)
    returns (n: nat)
    requires IsRun(run, acts) && i < j < |run| && acts[i].Run? && acts[i].t == t && t in run[i].thr
    requires run[i].thr[t].WaitMutex? && t in run[i + 1].thr && run[i + 1].thr[t] == WaitNotify(w, timed)
    requires t in run[j].thr && run[j].thr[t].Ret? && forall x :: i < x < j && t in run[x].thr ==> !run[x].thr[t].Ret?
    ensures i < n < j && Rejoins(run, acts, n, t, w)
    ensures var res := run[j].thr[t].res;
            Names(run[n], w.slot, w.m) <==> res.WaitDone? && res.got == w.m
    ensures Names(run[n], w.slot, w.m) ==>
              var res := run[j].thr[t].res;
              && SameWait(res.w, w) && (res.code == 0 || res.code == ETIMEDOUT)
              && w.m in run[j].mrec && run[j].mrec[w.m].owner == Some(t)
              && run[j].mrec[w.m].depth == Balance(run[j].log, t, w.m) == Balance(run[i].log, t, w.m) == w.d
              && w.d > 0
  {
    var r;
    n, r := WaitFollowed(run, acts, t, w, timed, i, j);
    var s := run[j];
    RunPrefix(run, acts, i);
    RunPrefix(run, acts, j);
    assert StepAt(run, acts, i);
    WaitSavesDepth(run[i], t, acts[i].ch, run[i + 1], w, timed);
    if Back(s.thr[t], w, r) {
      WaitReturnsOwning(s, t, s.thr[t].res.w, r, s.thr[t].res.code);
      RunsKeepInv(run, acts, j);
      assert ThreadOk(s, t, s.thr[t]);
    }
  }

  lemma RunPrefix(run: seq<State>, acts: seq<Action>, i: nat)
    requires IsRun(run, acts) && i < |run|
    ensures Reachable(run[i])
  {
    var before, steps := run[..i + 1], acts[..i];
    forall n | 0 <= n < i ensures StepAt(before, steps, n) { assert StepAt(run, acts, n); }
    assert IsRun(before, steps) && before[i] == run[i];
  }

  /** So a wait whose slot names the released mutex throughout returns 0 or ETIMEDOUT with that mutex at its entry
      depth. */
  lemma UndisturbedWait(run: seq<State>, acts: seq<Action>, t: Tid, w: Wait, timed: bool, i: nat, j: nat)
    requires IsRun(run, acts) && i < j < |run| && acts[i].Run? && acts[i].t == t && t in run[i].thr
    requires run[i].thr[t].WaitMutex? && t in run[i + 1].thr && run[i + 1].thr[t] == WaitNotify(w, timed)
    requires t in run[j].thr && run[j].thr[t].Ret? && forall x :: i < x < j && t in run[x].thr ==> !run[x].thr[t].Ret?
    requires forall x :: i < x < j ==> Names(run[x], w.slot, w.m)
    ensures var res := run[j].thr[t].res; res.WaitDone? && res.got == w.m && (res.code == 0 || res.code == ETIMEDOUT)
    ensures w.m in run[j].mrec && run[j].mrec[w.m].owner == Some(t)
    ensures run[j].mrec[w.m].depth == Balance(run[j].log, t, w.m) == Balance(run[i].log, t, w.m)
  {
    var n := WaitRestoresMutex(run, acts, t, w, timed, i, j);
    assert Names(run[n], w.slot, w.m);
  }

  // ---- A broadcast ------------------------------------------------------

  /** Step `n` of the run is one of thread `t` that marks token `k`. */
  ghost predicate Marks(run: seq<State>, acts: seq<Action>, n: nat, t: Tid, k: Kid) {
    && n < |acts| && n + 1 < |run| && acts[n].Run? && acts[n].t == t
    && k in run[n].tok && !run[n].tok[k].signaled && k in run[n + 1].tok && run[n + 1].tok[k].signaled
  }

  ghost predicate MarkedBetween(run: seq<State>, acts: seq<Action>, i: nat, j: nat, t: Tid, k: Kid) {
    exists n: nat :: i < n < j && Marks(run, acts, n, t, k)
  }

  /** The broadcast of `q` is under way: each waiter it has taken so far was marked by a step of its own. */
  ghost predicate Broadcasts(run: seq<State>, acts: seq<Action>, t: Tid, c: Cid, q: seq<Kid>, i: nat, j: nat)
    requires j < |run|
  {
    t in run[j].thr && var pc := run[j].thr[t];
    pc.BroadcastToken? && pc.c == c && pc.all == q
    && forall k :: k in pc.marked ==> MarkedBetween(run, acts, i, j, t, k)
  }

  /** A step of the broadcast marks the waiter at its front, and nothing else. */
  lemma BroadcastSteps(s: State, t: Tid, ch: Choice, s': State, c: Cid, k: Kid, marked: seq<Kid>, all: seq<Kid>)
    requires Inv(s) && Step(s, t, ch, s') && s.thr[t] == BroadcastToken(c, k, marked, all)
    ensures k in all && k in s.tok && !s.tok[k].signaled && s'.tok == s.tok[k := s.tok[k].(signaled := true)]
    ensures t in s'.thr && var pc := s'.thr[t];
            pc == NotifyTokens(marked + [k])
            || (pc.BroadcastToken? && pc.c == c && pc.marked == marked + [k] && pc.all == all)
  {
    assert ThreadOk(s, t, s.thr[t]);
    var q := s.crec[c].queue;
    assert all[|marked|] == q[0] && q[0] in q;
    assert QueuedOk(s, c, k);
  }

  lemma MarkedLater(run: seq<State>, acts: seq<Action>, i: nat, j: nat, t: Tid, k: Kid)
    requires MarkedBetween(run, acts, i, j, t, k)
    ensures MarkedBetween(run, acts, i, j + 1, t, k)
  {
    var n: nat :| i < n < j && Marks(run, acts, n, t, k);
    assert i < n < j + 1 && Marks(run, acts, n, t, k);
  }

  lemma BroadcastsNext(run: seq<State>, acts: seq<Action>, t: Tid, c: Cid, q: seq<Kid>, i: nat, j: nat)
    requires IsRun(run, acts) && i < j < |acts| && Broadcasts(run, acts, t, c, q, i, j)
    ensures var pc := run[j].thr[t];
            && t in run[j + 1].thr
            && if acts[j].Run? && acts[j].t == t
               then pc.t in q && Marks(run, acts, j, t, pc.t)
                    && (Broadcasts(run, acts, t, c, q, i, j + 1)
                        || run[j + 1].thr[t] == NotifyTokens(pc.marked + [pc.t]))
               else Broadcasts(run, acts, t, c, q, i, j + 1) && run[j + 1].thr[t] == pc
  {
    var s, a, s', pc := run[j], acts[j], run[j + 1], run[j].thr[t];
    RunsKeepInv(run, acts, j);
    assert StepAt(run, acts, j);
    forall k | k in pc.marked ensures MarkedBetween(run, acts, i, j + 1, t, k) { MarkedLater(run, acts, i, j, t, k); }
    if a.Run? && a.t == t {
      BroadcastSteps(s, t, a.ch, s', c, pc.t, pc.marked, pc.all);
      assert Marks(run, acts, j, t, pc.t);
      assert MarkedBetween(run, acts, i, j + 1, t, pc.t);
    } else {
      OthersLeave(s, a, s', t);
    }
  }

  lemma {:induction false} BroadcastFollowed(run: seq<State>, acts: seq<Action>, t: Tid, c: Cid, q: seq<Kid>, i: nat,
                                             j: nat)
    requires IsRun(run, acts) && i < j < |run| && q != [] && t in run[i + 1].thr
             && run[i + 1].thr[t] == BroadcastToken(c, q[0], [], q)
    requires forall x :: i < x <= j && t in run[x].thr ==> run[x].thr[t].BroadcastToken?
    ensures Broadcasts(run, acts, t, c, q, i, j)
    decreases j
  {
    if j > i + 1 {
      BroadcastFollowed(run, acts, t, c, q, i, j - 1);
      BroadcastsNext(run, acts, t, c, q, i, j - 1);
    }
  }

  /** A broadcast starts on the queue as it stands under the record lock. */
  lemma BroadcastStarts(s: State, t: Tid, ch: Choice, s': State, slot: U64, h: U64, c: Cid)
    requires Step(s, t, ch, s') && s.thr[t] == CondRecord(slot, h, c, ReqBroadcast)
    ensures c in s.crec && t in s'.thr && var q := s.crec[c].queue;
            s'.thr[t] == if q == [] then Ret(Code(0)) else BroadcastToken(c, q[0], [], q)
  {
  }

  lemma BroadcastBegins(run: seq<State>, acts: seq<Action>, t: Tid, slot: U64, h: U64, c: Cid, i: nat)
    requires IsRun(run, acts) && i + 1 < |run| && acts[i].Run? && acts[i].t == t && t in run[i].thr
             && t in run[i + 1].thr
    requires run[i].thr[t] == CondRecord(slot, h, c, ReqBroadcast) && run[i + 1].thr[t].BroadcastToken?
    ensures c in run[i].crec && var q := run[i].crec[c].queue;
                                q != [] && run[i + 1].thr[t] == BroadcastToken(c, q[0], [], q)
  {
    assert StepAt(run, acts, i);
    BroadcastStarts(run[i], t, acts[i].ch, run[i + 1], slot, h, c);
  }

  lemma MarksWithin(run: seq<State>, acts: seq<Action>, t: Tid, c: Cid, q: seq<Kid>, i: nat, n: nat, k: Kid)
    requires IsRun(run, acts) && i < n < |acts| && Broadcasts(run, acts, t, c, q, i, n) && Marks(run, acts, n, t, k)
    ensures k in q
  {
    RunsKeepInv(run, acts, n);
    var pc := run[n].thr[t];
    assert StepAt(run, acts, n);
    BroadcastSteps(run[n], t, acts[n].ch, run[n + 1], c, pc.t, pc.marked, pc.all);
  }

  lemma MarkedAreQueued(run: seq<State>, acts: seq<Action>, t: Tid, c: Cid, q: seq<Kid>, i: nat, j: nat, k: Kid)
    requires IsRun(run, acts) && i + 1 < j < |run| && q != [] && t in run[i + 1].thr
    requires run[i + 1].thr[t] == BroadcastToken(c, q[0], [], q) && MarkedBetween(run, acts, i, j, t, k)
    requires forall x :: i < x < j ==> t in run[x].thr && run[x].thr[t].BroadcastToken?
    ensures k in q
  {
    var n: nat :| i < n < j && Marks(run, acts, n, t, k);
    BroadcastFollowed(run, acts, t, c, q, i, n);
    MarksWithin(run, acts, t, c, q, i, n, k);
  }

  /** What the last step of a broadcast leaves. */
  lemma BroadcastEnds(run: seq<State>, acts: seq<Action>, t: Tid, c: Cid, q: seq<Kid>, i: nat, j: nat)
    requires IsRun(run, acts) && i < j < |acts| && Broadcasts(run, acts, t, c, q, i, j)
    requires t in run[j + 1].thr && run[j + 1].thr[t].NotifyTokens?
    ensures run[j + 1].thr[t].pending == q && c in run[j + 1].crec && run[j + 1].crec[c].queue == []
            && AllSignaled(run[j + 1], q)
    ensures forall k :: k in q ==> MarkedBetween(run, acts, i, j + 1, t, k)
  {
    var pc := run[j].thr[t];
    BroadcastsNext(run, acts, t, c, q, i, j);
    RunPrefix(run, acts, j);
    assert StepAt(run, acts, j);
    BroadcastMarksAll(run[j], t, acts[j].ch, run[j + 1], c, pc.t, pc.marked, q);
    forall k | k in q ensures MarkedBetween(run, acts, i, j + 1, t, k) {
      if k == pc.t {
        assert i < j < j + 1 && Marks(run, acts, j, t, k);
      } else {
        assert k in pc.marked;
        MarkedLater(run, acts, i, j, t, k);
      }
    }
  }

  /**
   A whole broadcast, from step `i` under the record lock to state `j`, the first in which it goes on to notify: the
   waiters that it marks are exactly those queued at step `i`, it goes on to notify exactly these, and the queue is
   empty.
   */
  lemma BroadcastMarksExactly(run: seq<State>, acts: seq<Action>, t: Tid, slot: U64, h: U64, c: Cid, i: nat, j: nat)
    requires IsRun(run, acts) && i + 1 < j < |run| && acts[i].Run? && acts[i].t == t && t in run[i].thr
    requires run[i].thr[t] == CondRecord(slot, h, c, ReqBroadcast) && t in run[j].thr && run[j].thr[t].NotifyTokens?
    requires forall x :: i < x < j ==> t in run[x].thr && run[x].thr[t].BroadcastToken?
    ensures c in run[i].crec && var q := run[i].crec[c].queue;
            && run[j].thr[t].pending == q && (forall k :: k in q <==> MarkedBetween(run, acts, i, j, t, k))
            && AllSignaled(run[j], q) && c in run[j].crec && run[j].crec[c].queue == []
  {
    assert t in run[i + 1].thr && run[i + 1].thr[t].BroadcastToken?;
    BroadcastBegins(run, acts, t, slot, h, c, i);
    var q := run[i].crec[c].queue;
    BroadcastFollowed(run, acts, t, c, q, i, j - 1);
    BroadcastEnds(run, acts, t, c, q, i, j - 1);
    forall k | MarkedBetween(run, acts, i, j, t, k) ensures k in q { MarkedAreQueued(run, acts, t, c, q, i, j, k); }
  }
}
