/** The step relation of the mutex and condition machine, and the invariant of its runs. */
module SyncSteps {
  import opened Base
  import opened Sync

  /** Everything a step leaves open: the guest's call, fresh identities, the host's wake-up choice, the clock. */
  datatype Choice = Choice(call: Call, id: nat, h: U64, k: Kid, pick: Option<Tid>, expire: bool)

  /** Thread `t` moves `s` to `s'`. */
  ghost predicate Step(s: State, t: Tid, ch: Choice, s': State) {
    Ready(s, t) &&
    match s.thr[t]
    case Ret(_) => s' == At(s, t, Entry(s, ch.call))
    case MutexTable(slot, req) => FreshMutex(s, ch.id, ch.h) && s' == MutexTableStep(s, t, slot, req, ch.id, ch.h)
    case MutexRecord(slot, h, r, req) =>
      r in s.mrec &&
      s' == (if req.ReqLock? then LockStep(s, t, r, req.k)
             else if req.ReqUnlock? then UnlockStep(s, t, r)
             else DestroyStep(s, t, slot, h, r))
    case Asleep(r, k) => s' == At(s, t, Woken(r, k))                     // spurious wake-up
    case Woken(r, k) => r in s.mrec && s.mrec[r].waiters > 0 && s' == WokenStep(s, t, r, k)
    case UnlockNotify(r) => PicksSleeper(s, r, ch.pick) && s' == At(NotifyMutex(s, r, ch.pick), t, Ret(Code(0)))
    case CondTable(slot, req) => FreshCond(s, ch.id, ch.h) && s' == CondTableStep(s, t, slot, req, ch.id, ch.h)
    case CondRecord(slot, h, c, req) => c in s.crec && s' == CondRecordStep(s, t, slot, h, c, req)
    case WaitMutex(c, m, slot, timed) =>
      c in s.crec && m in s.mrec && ch.k !in s.tok && s' == WaitMutexStep(s, t, c, m, slot, timed, ch.k)
    case WaitNotify(w, timed) =>
      PicksSleeper(s, w.m, ch.pick) && s' == At(NotifyMutex(s, w.m, ch.pick), t, TokenCheck(w, timed))
    case TokenCheck(w, timed) => w.k in s.tok && s' == TokenStep(s, t, w, timed, false)
    case TokenAsleep(w, timed) => s' == At(s, t, TokenWoken(w, timed, timed && ch.expire))  // timeout or spurious
    case TokenWoken(w, timed, expired) => w.k in s.tok && s' == TokenStep(s, t, w, timed, expired)
    case ExpireToken(w) => w.k in s.tok && w.c in s.crec && s' == ExpireStep(s, t, w)
    case Restore(w, got) => w.m in s.mrec && s' == RestoreStep(s, t, w, got)
    case SignalToken(c, k) => c in s.crec && s.crec[c].queue != [] && k in s.tok && s' == SignalStep(s, t, c, k)
    case BroadcastToken(c, k, marked, all) =>
      c in s.crec && s.crec[c].queue != [] && k in s.tok && s' == BroadcastStep(s, t, c, k, marked, all)
    case NotifyTokens(pending) => pending != [] && s' == NotifyTokensStep(s, t, pending)
  }

  /** A thread step, or an arbitrary change of guest memory. */
  datatype Action =
    | Run(t: Tid, ch: Choice)
    | GuestStore(mem: map<U64, U64>, wr: set<U64>)

  ghost predicate Act(s: State, a: Action, s': State) {
    match a
    case Run(t, ch) => Step(s, t, ch, s')
    case GuestStore(mem, wr) => s' == s.(mem := mem, wr := wr)
  }

  ghost predicate Initial(s: State) {
    && (forall t :: t in s.thr ==> s.thr[t] == Ret(Code(0)))
    && s.mrec == map[] && s.mtab == map[] && s.crec == map[] && s.ctab == map[] && s.tok == map[] && s.log == []
  }

  ghost predicate IsRun(run: seq<State>, acts: seq<Action>) {
    && |run| == |acts| + 1 && Initial(run[0])
    && forall i {:trigger StepAt(run, acts, i)} :: 0 <= i < |acts| ==> StepAt(run, acts, i)
  }

  /** Action `i` leads from state `i` to the next. */
  ghost predicate StepAt(run: seq<State>, acts: seq<Action>, i: int) {
    0 <= i < |acts| && i + 1 < |run| && Act(run[i], acts[i], run[i + 1])
  }

  // ---- Derived views ----------------------------------------------------

  /** The condition wait a thread is in, from its release of the mutex to its return. */
  function WaitOf(pc: Pc): Option<Wait> {
    match pc
    case Ret(WaitDone(w, _, _)) => Some(w)
    case Ret(WaitFailed(w, _)) => Some(w)
    case MutexTable(_, ReqLock(Rewait(w))) => Some(w)
    case MutexRecord(_, _, _, ReqLock(Rewait(w))) => Some(w)
    case Asleep(_, Rewait(w)) => Some(w)
    case Woken(_, Rewait(w)) => Some(w)
    case CondTable(_, ReqExpire(w)) => Some(w)
    case CondRecord(_, _, _, ReqExpire(w)) => Some(w)
    case WaitNotify(w, _) => Some(w)
    case TokenCheck(w, _) => Some(w)
    case TokenAsleep(w, _) => Some(w)
    case TokenWoken(w, _, _) => Some(w)
    case ExpireToken(w) => Some(w)
    case Restore(w, _) => Some(w)
    case _ => None
  }

  /** The wait has neither seen its signal nor timed out. */
  predicate Undecided(pc: Pc) {
    pc.CondTable? || pc.CondRecord? || pc.WaitNotify? || pc.TokenCheck? || pc.TokenAsleep? || pc.TokenWoken?
    || pc.ExpireToken?
  }

  predicate WaitsOn(pc: Pc, r: Rid) {
    (pc.Asleep? && pc.r == r) || (pc.Woken? && pc.r == r)
  }

  /** The threads `MutexRecord::waiters` counts. */
  ghost function Waiters(thr: map<Tid, Pc>, r: Rid): set<Tid> {
    set v | v in thr && WaitsOn(thr[v], r)
  }

  ghost predicate LiveMutex(s: State, r: Rid) {
    r in s.mrec && s.mrec[r].handle in s.mtab && s.mtab[s.mrec[r].handle] == r
  }

  ghost predicate LiveCond(s: State, c: Cid) {
    c in s.crec && s.crec[c].handle in s.ctab && s.ctab[s.crec[c].handle] == c
  }

  /** A notification of `r` is pending, or a woken waiter has yet to re-check. */
  predicate Wakes(pc: Pc, r: Rid) {
    (pc.UnlockNotify? && pc.r == r) || (pc.WaitNotify? && pc.w.m == r) || (pc.Woken? && pc.r == r)
  }

  predicate WakesToken(pc: Pc, k: Kid) {
    (pc.NotifyTokens? && k in pc.pending) || (pc.BroadcastToken? && k in pc.marked)
  }

  /** Depth at which the guest believes thread `t` holds `r`, from the results it was given. */
  function Balance(log: seq<Event>, t: Tid, r: Rid): nat {
    if log == [] then 0 else
      var e, before := log[|log| - 1], Balance(log[..|log| - 1], t, r);
      if e.t != t || e.r != r then before
      else match e
        case Locked(_, _) => before + 1
        case Unlocked(_, _) => if before > 0 then before - 1 else 0
        case Released(_, _) => 0
        case Restored(_, _, d) => d
  }

  /** `t` owns `r` but its condition wait has not given the depth back yet. */
  predicate Restoring(pc: Pc, r: Rid) {
    pc.Restore? && pc.got == r && pc.w.m == r
  }

  // ---- The invariant ----------------------------------------------------

  ghost predicate Exclusive(s: State) {
    forall t, u, l {:trigger l in Held(s.thr[t]), l in Held(s.thr[u])} ::
      t in s.thr && u in s.thr && l in Held(s.thr[t]) && l in Held(s.thr[u]) ==> t == u
  }

  ghost predicate Tables(s: State) {
    && (forall h :: h in s.mtab ==> h > MUTEX_DESTROYED && s.mtab[h] in s.mrec && s.mrec[s.mtab[h]].handle == h)
    && (forall h :: h in s.ctab ==> h > COND_DESTROYED && s.ctab[h] in s.crec && s.crec[s.ctab[h]].handle == h)
  }

  /** What a thread at `pc` may rely on. */
  ghost predicate ThreadOk(s: State, t: Tid, pc: Pc) {
    match pc
    case MutexRecord(_, h, r, req) =>
      h in s.mtab && s.mtab[h] == r && (req.ReqLock? || req.ReqUnlock? || req.ReqDestroy?)
    case Asleep(r, _) => r in s.mrec
    case Woken(r, _) => r in s.mrec
    case UnlockNotify(r) => r in s.mrec
    case CondTable(_, req) => req.ReqCondWait? ==> req.m in s.mrec
    case CondRecord(_, h, c, req) =>
      && !req.ReqCondInit? && (req.ReqCondWait? ==> req.m in s.mrec)
      && if req.ReqExpire? then c == req.w.c else h in s.ctab && s.ctab[h] == c
    case WaitMutex(c, m, _, _) => LiveCond(s, c) && m in s.mrec
    case SignalToken(c, k) => LiveCond(s, c) && s.crec[c].queue != [] && s.crec[c].queue[0] == k
    case BroadcastToken(c, k, marked, all) =>
      && LiveCond(s, c) && s.crec[c].queue != [] && s.crec[c].queue[0] == k && all == marked + s.crec[c].queue
      && AllSignaled(s, marked)
    case NotifyTokens(pending) => pending != [] && AllSignaled(s, pending)
    case Restore(w, got) => got in s.mrec && w.d > 1 && s.mrec[got].owner == Some(t)
                            && (got == w.m ==> s.mrec[got].depth == 1)
    case Ret(WaitDone(w, got, code)) =>
      code == WaitCode(w) && got in s.mrec && s.mrec[got].owner == Some(t) && (got == w.m ==> s.mrec[got].depth == w.d)
    case _ => true
  }

  ghost predicate AllSignaled(s: State, ks: seq<Kid>) {
    forall x :: x in ks ==> x in s.tok && s.tok[x].signaled
  }

  ghost predicate Threads(s: State) {
    forall t {:trigger ThreadOk(s, t, s.thr[t])} :: t in s.thr ==> ThreadOk(s, t, s.thr[t])
  }

  /** A mutex record agrees with its owner, its waiter count and its table entry. */
  ghost predicate RecordOk(s: State, r: Rid, m: MutexRec) {
    && m.locked == m.owner.Some?
    && (m.locked ==> 1 <= m.depth <= DEPTH_MAX && m.owner.value in s.thr)
    && (!m.locked ==> m.depth == 0)
    && (m.kind != Recursive ==> m.depth <= 1)
    && m.waiters == |Waiters(s.thr, r)|
    && (m.locked || m.waiters > 0 ==> LiveMutex(s, r))
  }

  ghost predicate Mutexes(s: State) {
    forall r {:trigger RecordOk(s, r, s.mrec[r])} :: r in s.mrec ==> RecordOk(s, r, s.mrec[r])
  }

  /** A wait owns its token; undecided waits are queued exactly while unsignalled, and decided ones agree with the
      token. */
  ghost predicate WaitOk(s: State, t: Tid, pc: Pc) {
    WaitOf(pc).Some? ==>
      var w := WaitOf(pc).value;
      && w.k in s.tok && s.tok[w.k].owner == t && s.tok[w.k].cond == w.c
      && w.c in s.crec && w.m in s.mrec
      && 1 <= w.d <= DEPTH_MAX && (w.d > 1 ==> s.mrec[w.m].kind == Recursive)
      && (HasBack(pc) || s.mrec[w.m].owner != Some(t))
      && if Undecided(pc) then !w.timedOut && (w.k in s.crec[w.c].queue <==> !s.tok[w.k].signaled)
         else w.timedOut == !s.tok[w.k].signaled
  }

  /** The wait has re-acquired the mutex it released. */
  predicate HasBack(pc: Pc) {
    (pc.Restore? && pc.got == pc.w.m) || (pc.Ret? && pc.res.WaitDone? && pc.res.got == pc.res.w.m)
  }

  ghost predicate Waits(s: State) {
    forall t {:trigger WaitOk(s, t, s.thr[t])} :: t in s.thr ==> WaitOk(s, t, s.thr[t])
  }

  /** `k` is queued on `c`: unsignalled, and its owner is an undecided waiter of `c`. */
  ghost predicate QueuedOk(s: State, c: Cid, k: Kid) {
    && k in s.tok && !s.tok[k].signaled && s.tok[k].cond == c && s.tok[k].owner in s.thr
    && var pc := s.thr[s.tok[k].owner]; WaitOf(pc).Some? && WaitOf(pc).value.k == k && Undecided(pc)
  }

  ghost predicate Queues(s: State) {
    forall c :: c in s.crec ==>
      && NoDup(s.crec[c].queue)
      && (s.crec[c].queue != [] ==> LiveCond(s, c))
      && forall k :: k in s.crec[c].queue ==> QueuedOk(s, c, k)
  }

  ghost predicate NoLostWakeup(s: State) {
    forall v :: v in s.thr && s.thr[v].Asleep? && s.thr[v].r in s.mrec && !s.mrec[s.thr[v].r].locked ==>
      exists u :: u in s.thr && Wakes(s.thr[u], s.thr[v].r)
  }

  ghost predicate NoLostToken(s: State) {
    forall v :: v in s.thr && s.thr[v].TokenAsleep? && s.thr[v].w.k in s.tok && s.tok[s.thr[v].w.k].signaled ==>
      exists u :: u in s.thr && WakesToken(s.thr[u], s.thr[v].w.k)
  }

  /** The depth the guest was told about is the depth in the record. */
  ghost function Believed(s: State, t: Tid, r: Rid): nat {
    if r in s.mrec && s.mrec[r].owner == Some(t) && !(t in s.thr && Restoring(s.thr[t], r)) then s.mrec[r].depth else 0
  }

  ghost predicate History(s: State) {
    forall t, r :: Balance(s.log, t, r) == Believed(s, t, r)
  }

  ghost predicate Inv(s: State) {
    && Exclusive(s) && Tables(s) && Threads(s) && Mutexes(s) && Waits(s) && Queues(s)
    && NoLostWakeup(s) && NoLostToken(s) && History(s)
  }
}
