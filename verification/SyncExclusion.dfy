/** Mutual exclusion as the guest sees it: between calls, by the codes they return. */
module SyncExclusion {
  import opened Base
  import opened Sync
  import opened SyncSteps
  import opened SyncProof
  import opened SyncTheorems
  import opened SyncRuns
  import opened SyncCalls
  import opened SyncCodes

  // ---- How a thread loses a mutex ---------------------------------------

  /** An unlock, or the release of a condition wait, on `r`. */
  predicate GivesUp(pc: Pc, r: Rid) {
    (pc.MutexRecord? && pc.r == r && pc.req == ReqUnlock) || (pc.WaitMutex? && pc.m == r)
  }

  lemma LockKeeps(s: State, t: Tid, r: Rid, k: Cont, q: Rid)
    requires r in s.mrec && RecordOk(s, r, s.mrec[r])
    ensures DepthOf(LockStep(s, t, r, k), t, q) >= DepthOf(s, t, q)
  {
    if !(s.mrec[r].locked && s.mrec[r].owner == Some(t)) { OtherRecords(s, t, r, k); }
    else if s.mrec[r].kind == Recursive { RecursiveRecords(s, t, r, k); }
    else { OnceRecords(s, t, r, k); }
  }

  lemma UnlockKeeps(s: State, t: Tid, r: Rid, q: Rid)
    requires r in s.mrec && RecordOk(s, r, s.mrec[r]) && q != r
    ensures DepthOf(UnlockStep(s, t, r), t, q) == DepthOf(s, t, q)
  {
    UnlocksRecord(s, t, r);
  }

  lemma WaitMutexKeeps(s: State, t: Tid, c: Cid, m: Rid, slot: U64, timed: bool, k: Kid, q: Rid)
    requires c in s.crec && m in s.mrec && q != m
    ensures DepthOf(WaitMutexStep(s, t, c, m, slot, timed, k), t, q) == DepthOf(s, t, q)
  {
  }

  lemma RestoreKeeps(s: State, t: Tid, w: Wait, got: Rid, q: Rid)
    requires w.m in s.mrec && w.d > 0
    ensures DepthOf(s, t, q) > 0 ==> DepthOf(RestoreStep(s, t, w, got), t, q) > 0
  {
  }

  lemma WokenKeeps(s: State, t: Tid, r: Rid, k: Cont, q: Rid)
    requires r in s.mrec && s.mrec[r].waiters > 0 && RecordOk(s, r, s.mrec[r])
    ensures DepthOf(WokenStep(s, t, r, k), t, q) >= DepthOf(s, t, q)
  {
  }

  /** Only an unlock or a wait makes a thread lose a mutex. */
  lemma LosesBy(s: State, t: Tid, ch: Choice, s': State, r: Rid)
    requires Inv(s) && Step(s, t, ch, s') && DepthOf(s, t, r) > 0 && DepthOf(s', t, r) == 0
    ensures GivesUp(s.thr[t], r)
  {
    var pc := s.thr[t];
    assert ThreadOk(s, t, pc);
    if pc.MutexRecord? {
      assert RecordOk(s, pc.r, s.mrec[pc.r]);
      if pc.req.ReqLock? { LockKeeps(s, t, pc.r, pc.req.k, r); }
      else if pc.req.ReqUnlock? { if pc.r != r { UnlockKeeps(s, t, pc.r, r); } }
      else { DestroySpares(s, t, pc.slot, pc.h, pc.r); }
    } else {
      LosesElsewhere(s, t, ch, s', r);
    }
  }

  lemma LosesElsewhere(s: State, t: Tid, ch: Choice, s': State, r: Rid)
    requires Inv(s) && Step(s, t, ch, s') && DepthOf(s, t, r) > 0 && DepthOf(s', t, r) == 0 && !s.thr[t].MutexRecord?
    ensures GivesUp(s.thr[t], r)
  {
    match s.thr[t]
    case MutexTable(slot, req) => TableSpares(s, t, slot, req, ch.id, ch.h);
    case Woken(q, k) => assert RecordOk(s, q, s.mrec[q]); WokenKeeps(s, t, q, k, r);
    case WaitMutex(c, m, slot, timed) => if m != r { WaitMutexKeeps(s, t, c, m, slot, timed, ch.k, r); }
    case Restore(w, got) => assert WaitOk(s, t, s.thr[t]); RestoreKeeps(s, t, w, got, r);
    case _ => OtherSideSpares(s, t, ch, s');
  }

  /** Between a state in which `t` holds `r` and one in which it does not, it takes a step to give it up. */
  lemma {:induction false} LosesBetween(run: seq<State>, acts: seq<Action>, t: Tid, r: Rid, j: nat, n: nat)
    returns (x: nat)
    requires IsRun(run, acts) && j < n < |run| && DepthOf(run[j], t, r) > 0 && DepthOf(run[n], t, r) == 0
    ensures j <= x < n && acts[x].Run? && acts[x].t == t && t in run[x].thr && GivesUp(run[x].thr[t], r)
    decreases n
  {
    if DepthOf(run[n - 1], t, r) == 0 {
      x := LosesBetween(run, acts, t, r, j, n - 1);
    } else {
      x := n - 1;
      LosesAt(run, acts, t, r, x, n);
    }
  }

  lemma LosesAt(run: seq<State>, acts: seq<Action>, t: Tid, r: Rid, x: nat, n: nat)
    requires IsRun(run, acts) && n == x + 1 < |run| && DepthOf(run[x], t, r) > 0 && DepthOf(run[n], t, r) == 0
    ensures acts[x].Run? && acts[x].t == t && t in run[x].thr && GivesUp(run[x].thr[t], r)
  {
    assert StepAt(run, acts, x);
    RunsKeepInv(run, acts, x);
    if !(acts[x].Run? && acts[x].t == t) { OthersSpare(run[x], acts[x], run[n], t); }
    LosesBy(run[x], t, acts[x].ch, run[n], r);
  }

  // ---- The call behind it -----------------------------------------------

  /** At `y`, back from its last call, `t` calls unlock or wait. */
  ghost predicate CallsToGiveUp(run: seq<State>, acts: seq<Action>, t: Tid, y: nat) {
    && y < |acts| && y < |run| && t in run[y].thr && run[y].thr[t].Ret? && acts[y].Run? && acts[y].t == t
    && (acts[y].ch.call.CallUnlock? || acts[y].ch.call.CallWait?)
  }

  /** A thread that leaves `Ret` does so by a call. */
  lemma LeavesByCall(s: State, a: Action, s': State, t: Tid)
    requires Inv(s) && Act(s, a, s') && t in s.thr && s.thr[t].Ret? && t in s'.thr && !s'.thr[t].Ret?
    ensures a.Run? && a.t == t
  {
    if !(a.Run? && a.t == t) { OthersLeave(s, a, s', t); }
  }

  lemma LeavesAt(run: seq<State>, acts: seq<Action>, t: Tid, n: nat)
    requires IsRun(run, acts) && n + 1 < |run| && t in run[n].thr && run[n].thr[t].Ret? && Busy(run, t, n + 1)
    ensures acts[n].Run? && acts[n].t == t
  {
    RunsKeepInv(run, acts, n);
    assert StepAt(run, acts, n);
    LeavesByCall(run[n], acts[n], run[n + 1], t);
  }

  /** The call that a busy thread is in: made after `j`, when it was last back. */
  lemma {:induction false} CallBehind(run: seq<State>, acts: seq<Action>, t: Tid, j: nat, x: nat) returns (y: nat)
    requires IsRun(run, acts) && j <= x < |run| && t in run[j].thr && run[j].thr[t].Ret? && Busy(run, t, x)
    ensures j <= y < x && t in run[y].thr && run[y].thr[t].Ret? && acts[y].Run? && acts[y].t == t
    ensures forall m {:trigger Busy(run, t, m)} :: y < m <= x ==> Busy(run, t, m)
    decreases x
  {
    InRun(run, acts, t, j, x - 1);
    if run[x - 1].thr[t].Ret? {
      y := x - 1;
      LeavesAt(run, acts, t, y);
    } else {
      assert Busy(run, t, x - 1);
      y := CallBehind(run, acts, t, j, x - 1);
    }
  }

  lemma StaysIn(s: State, a: Action, s': State, t: Tid)
    requires Inv(s) && Act(s, a, s') && t in s.thr
    ensures t in s'.thr
  {
    if !(a.Run? && a.t == t) { OthersLeave(s, a, s', t); }
    else if !s.thr[t].Ret? { StepNext(s, t, a.ch, s'); }
  }

  /** Threads stay. */
  lemma {:induction false} InRun(run: seq<State>, acts: seq<Action>, t: Tid, j: nat, n: nat)
    requires IsRun(run, acts) && j <= n < |run| && t in run[j].thr
    ensures t in run[n].thr
    decreases n
  {
    if j < n {
      InRun(run, acts, t, j, n - 1);
      RunsKeepInv(run, acts, n - 1);
      assert StepAt(run, acts, n - 1);
      StaysIn(run[n - 1], acts[n - 1], run[n], t);
    }
  }

  lemma GivesUpWithin(call: Call, pc: Pc, r: Rid)
    requires Within(call, pc) && GivesUp(pc, r)
    ensures call.CallUnlock? || call.CallWait?
  {
  }

  /** A thread that is back and holds a mutex loses it only by calling unlock or wait. */
  lemma LosesByCall(run: seq<State>, acts: seq<Action>, t: Tid, r: Rid, j: nat, n: nat) returns (y: nat)
    requires IsRun(run, acts) && j < n < |run| && t in run[j].thr && run[j].thr[t].Ret?
    requires DepthOf(run[j], t, r) > 0 && DepthOf(run[n], t, r) == 0
    ensures j <= y < n && CallsToGiveUp(run, acts, t, y)
  {
    var x := LosesBetween(run, acts, t, r, j, n);
    assert Busy(run, t, x);
    y := CallBehind(run, acts, t, j, x);
    StaysWithin(run, acts, t, acts[y].ch.call, y, x);
    GivesUpWithin(acts[y].ch.call, run[x].thr[t], r);
  }

  // ---- Mutual exclusion -------------------------------------------------

  /** During (i, j] the slot names no record but `r`. */
  ghost predicate OnlyNames(run: seq<State>, slot: U64, i: nat, j: nat, r: Rid) {
    forall m, q :: i < m <= j && m < |run| && Names(run[m], slot, q) ==> q == r
  }

  /** `t` is back at `j` from a call that gave it `r`: a lock that returned 0, or a condition wait that took it back. */
  ghost predicate Acquires(run: seq<State>, acts: seq<Action>, t: Tid, call: Call, r: Rid, i: nat, j: nat) {
    && Calls(run, acts, t, call, i, j)
    && if call.CallLock? then run[j].thr[t] == Ret(Code(0)) && OnlyNames(run, call.slot, i, j, r)
       else call.CallWait? && run[j].thr[t].res.WaitDone? && run[j].thr[t].res.got == r
  }

  /** Then it does hold it. */
  lemma AcquiredIsHeld(run: seq<State>, acts: seq<Action>, t: Tid, call: Call, r: Rid, i: nat, j: nat)
    requires IsRun(run, acts) && Acquires(run, acts, t, call, r, i, j)
    ensures DepthOf(run[j], t, r) > 0 && run[j].mrec[r].owner == Some(t)
  {
    RunsKeepInv(run, acts, j);
    if call.CallLock? {
      LockCall(run, acts, t, call.slot, i, j);
      var q :| NamedBy(run, call.slot, i, j, q) && Deeper(run[i], run[j], t, q);
      var m :| i < m <= j && m < |run| && Names(run[m], call.slot, q);
      assert q == r;
    } else {
      assert ThreadOk(run[j], t, run[j].thr[t]);
      assert RecordOk(run[j], r, run[j].mrec[r]);
    }
  }

  /** Mutual exclusion: if one thread is given a mutex, and then another is given the same one, the first called unlock
      or wait in between. */
  lemma ExclusionBetweenCalls(run: seq<State>, acts: seq<Action>, t: Tid, u: Tid, call: Call, call': Call, r: Rid,
                              i: nat, j: nat, i': nat, j': nat)
    returns (y: nat)
    requires IsRun(run, acts) && t != u && j <= j'
    requires Acquires(run, acts, t, call, r, i, j) && Acquires(run, acts, u, call', r, i', j')
    ensures j <= y < j' && CallsToGiveUp(run, acts, t, y)
  {
    AcquiredIsHeld(run, acts, t, call, r, i, j);
    AcquiredIsHeld(run, acts, u, call', r, i', j');
    assert DepthOf(run[j'], t, r) == 0;
    y := LosesByCall(run, acts, t, r, j, j');
  }
}
