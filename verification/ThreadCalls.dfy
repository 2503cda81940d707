/** Whole thread-manager calls: what the code that a join, a detach or a create returns says about the record. */
module ThreadCalls {
  import opened Base
  import opened ThreadManager

  /** The thread whose pc an action moves. */
  predicate MovedBy(a: Action, t: Tid) { !a.Finish? && a.t == t }

  /** Where a thread can be while it is in `call`. */
  predicate Within(call: Call, pc: Pc) {
    pc.Ret? || match call
               case CallJoin(h, timed, _) =>
                 || pc == Claim(h, timed) || (pc.Joining? && pc.h == h && pc.timed == timed)
                 || (pc.TimedOut? && pc.h == h && timed) || (pc.Threw? && pc.h == h) || (pc.Joined? && pc.h == h)
               case CallDetach(h) => pc == Detach(h)
               case CallCreate(detached, _) => pc == Create(detached)
               case CallSize => pc == Size
  }

  /** Thread `t` makes `call` at `i` and is next seen back at `j`. */
  ghost predicate Calls(run: seq<State>, acts: seq<Action>, t: Tid, call: Call, current: Handle, i: nat, j: nat) {
    && i < j < |run| && |run| == |acts| + 1 && acts[i] == Enter(t, call, current)
    && t in run[j].thr && run[j].thr[t].Ret?
    && forall n {:trigger Busy(run, t, n)} :: i < n < j ==> Busy(run, t, n)
  }

  ghost predicate Busy(run: seq<State>, t: Tid, n: int) { 0 <= n < |run| && t in run[n].thr && !run[n].thr[t].Ret? }

  lemma OthersStay(x: State, a: Action, x': State, t: Tid)
    requires Act(x, a, x') && t in x.thr && !MovedBy(a, t)
    ensures t in x'.thr && x'.thr[t] == x.thr[t]
  {
  }

  lemma StepsWithin(x: State, a: Action, x': State, t: Tid, call: Call)
    requires Act(x, a, x') && t in x.thr && !x.thr[t].Ret? && Within(call, x.thr[t])
    ensures t in x'.thr && Within(call, x'.thr[t])
  {
    if !MovedBy(a, t) { OthersStay(x, a, x', t); }
  }

  lemma {:induction false} StaysWithin(run: seq<State>, acts: seq<Action>, t: Tid, call: Call, current: Handle, i: nat,
                                       n: nat)
    requires IsRun(run, acts) && i < n < |run| && acts[i] == Enter(t, call, current)
    requires forall m {:trigger Busy(run, t, m)} :: i < m < n ==> Busy(run, t, m)
    ensures t in run[n].thr && Within(call, run[n].thr[t])
    decreases n
  {
    assert Act(run[n - 1], acts[n - 1], run[n]);
    if n > i + 1 {
      assert Busy(run, t, n - 1);
      StaysWithin(run, acts, t, call, current, i, n - 1);
      StepsWithin(run[n - 1], acts[n - 1], run[n], t, call);
    }
  }

  // ---- Join -------------------------------------------------------------

  /** What a join that is past its first checks says when it returns: 0 with the value of its worker, which is recorded
      as delivered in that very step while the record goes; any other code without a delivery. */
  ghost predicate JoinAnswer(x: State, x': State, t: Tid, h: Handle)
    requires t in x'.thr && x'.thr[t].Ret?
  {
    var code := x'.thr[t].code;
    if code == 0 then
      && h in x.table && x.table[h].claimed && x.table[h].claimant == t && x'.table == x.table - {h}
      && var id := x.table[h].id; id in x.ended && x.ended[id].completed
                                  && x'.log == x.log + [Delivery(id, t, x.ended[id].value)]
    else x'.log == x.log
  }

  /** The codes of a join, by what it found. */
  ghost predicate JoinCodes(x: State, x': State, t: Tid, h: Handle)
    requires t in x.thr && t in x'.thr && x'.thr[t].Ret?
  {
    var code := x'.thr[t].code;
    match x.thr[t]
    case Claim(_, _) =>
      code == if h !in x.table then ESRCH else if x.table[h].claimed then ENOTSUP else EINVAL
    case TimedOut(_, _) =>
      code == ETIMEDOUT && h in x.table && x'.table == x.table[h := x.table[h].(claimed := false)]
    case Threw(_, _) => code == EINVAL && x'.table == x.table - {h}
    case _ => code == 0 || (code == EINVAL && x'.table == x.table - {h})
  }

  lemma JoinEnds(x: State, a: Action, x': State, t: Tid, call: Call)
    requires Inv(x) && Act(x, a, x') && t in x.thr && !x.thr[t].Ret? && Within(call, x.thr[t]) && call.CallJoin?
    requires t in x'.thr && x'.thr[t].Ret?
    ensures JoinAnswer(x, x', t, call.h) && JoinCodes(x, x', t, call.h)
  {
    if !MovedBy(a, t) { OthersStay(x, a, x', t); }
    assert ClaimOk(x, t, x.thr[t]);
    forall g | g in x.table ensures RecordOk(x, g, x.table[g]) { }
  }

  /** A join call returns 0 exactly when it delivers its worker's value. */
  lemma JoinCall(run: seq<State>, acts: seq<Action>, t: Tid, call: Call, current: Handle, i: nat, j: nat)
    requires IsRun(run, acts) && Calls(run, acts, t, call, current, i, j) && call.CallJoin?
    ensures if j == i + 1
            then run[j] == At(run[i], t, Ret(if call.h != 0 && call.h == current && (call.timed ==> call.deadlineOk)
                                             then EDEADLK else EINVAL))
            else Busy(run, t, j - 1) && JoinAnswer(run[j - 1], run[j], t, call.h)
                 && JoinCodes(run[j - 1], run[j], t, call.h)
  {
    assert Act(run[j - 1], acts[j - 1], run[j]);
    if j > i + 1 {
      assert Busy(run, t, j - 1);
      StaysWithin(run, acts, t, call, current, i, j - 1);
      RunsKeepInv(run, acts, j - 1);
      JoinEnds(run[j - 1], acts[j - 1], run[j], t, call);
    }
  }

  // ---- Detach and create ------------------------------------------------

  /** A detach call returns 0 exactly when it marks the record at its handle, which was neither detached nor claimed;
      otherwise it changes no record. */
  lemma DetachCall(run: seq<State>, acts: seq<Action>, t: Tid, h: Handle, current: Handle, i: nat, j: nat)
    requires IsRun(run, acts) && Calls(run, acts, t, CallDetach(h), current, i, j)
    ensures var x, x', code := run[j - 1], run[j], run[j].thr[t].code;
            if h != 0 && h != x.root && h in x.table && !x.table[h].detached && !x.table[h].claimed
            then code == 0 && x'.table == x.table[h := x.table[h].(detached := true)]
            else code == (if h == 0 || (h != x.root && h !in x.table) then ESRCH else EINVAL) && x'.table == x.table
  {
    assert Act(run[j - 1], acts[j - 1], run[j]);
    RootStays(run, acts, i, j - 1);
    if j > i + 1 {
      assert Busy(run, t, j - 1);
      StaysWithin(run, acts, t, CallDetach(h), current, i, j - 1);
      DetachWasGood(run, acts, t, h, current, i, j - 1);
      if !MovedBy(acts[j - 1], t) { OthersStay(run[j - 1], acts[j - 1], run[j], t); }
    }
  }

  lemma {:induction false} RootStays(run: seq<State>, acts: seq<Action>, i: nat, n: nat)
    requires IsRun(run, acts) && i <= n < |run|
    ensures run[n].root == run[i].root
    decreases n
  {
    if i < n {
      RootStays(run, acts, i, n - 1);
      assert Act(run[n - 1], acts[n - 1], run[n]);
    }
  }

  lemma DetachWasGood(run: seq<State>, acts: seq<Action>, t: Tid, h: Handle, current: Handle, i: nat, n: nat)
    requires IsRun(run, acts) && i < n < |run| && acts[i] == Enter(t, CallDetach(h), current)
    requires forall m {:trigger Busy(run, t, m)} :: i < m <= n ==> Busy(run, t, m)
    ensures h != 0 && h != run[i].root
  {
    assert Busy(run, t, i + 1) && Act(run[i], acts[i], run[i + 1]);
  }

  /** A create call that returns 0 has put a record with a new identity, as detached as asked for and unclaimed, at a
      handle that was free once the finished detached records were gone. */
  lemma CreateCall(run: seq<State>, acts: seq<Action>, t: Tid, detached: bool, argsOk: bool, current: Handle, i: nat,
                   j: nat)
    returns (h: Handle)
    requires IsRun(run, acts) && Calls(run, acts, t, CallCreate(detached, argsOk), current, i, j)
    ensures run[j].thr[t].code == 0 ==>
              && argsOk && h in run[j].table && run[j].table[h].id == run[j - 1].next < run[j].next
              && run[j].table[h].detached == detached && !run[j].table[h].claimed && run[j].table[h].started
              && run[j].table - {h} == Reap(run[j - 1]) - {h} && h !in Reap(run[j - 1])
    ensures run[j].thr[t].code != 0 ==>
              run[j].thr[t].code == (if argsOk then EAGAIN else EINVAL)
              && run[j].table == (if argsOk then Reap(run[j - 1]) else run[j - 1].table)
  {
    h := 0;
    assert Act(run[j - 1], acts[j - 1], run[j]);
    if j > i + 1 {
      assert Busy(run, t, j - 1) && Busy(run, t, i + 1) && Act(run[i], acts[i], run[i + 1]);
      StaysWithin(run, acts, t, CallCreate(detached, argsOk), current, i, j - 1);
      if !MovedBy(acts[j - 1], t) { OthersStay(run[j - 1], acts[j - 1], run[j], t); }
      h := acts[j - 1].h;
    }
  }

  // ---- Detached for good ------------------------------------------------

  /** The record `id` at `h` is detached, or gone without its value delivered, and cannot come back. */
  ghost predicate LetGo(x: State, h: Handle, id: Id) {
    && id < x.next
    && (forall g :: g in x.table && x.table[g].id == id ==> g == h && x.table[g].detached)
    && (forall k :: 0 <= k < |x.log| ==> x.log[k].id != id)
  }

  lemma LetGoStays(x: State, a: Action, x': State, h: Handle, id: Id)
    requires Inv(x) && Act(x, a, x') && LetGo(x, h, id)
    ensures LetGo(x', h, id)
  {
    if a.Step? && a.t in x.thr { assert ClaimOk(x, a.t, x.thr[a.t]); }
  }

  /** Once a thread is detached no join ever delivers its value, and its handle never becomes joinable. */
  lemma {:induction false} DetachedForGood(run: seq<State>, acts: seq<Action>, h: Handle, i: nat, n: nat)
    requires IsRun(run, acts) && i <= n < |run| && h in run[i].table && run[i].table[h].detached
    ensures LetGo(run[n], h, run[i].table[h].id)
    decreases n
  {
    RunsKeepInv(run, acts, i);
    assert RecordOk(run[i], h, run[i].table[h]);
    if i < n {
      DetachedForGood(run, acts, h, i, n - 1);
      RunsKeepInv(run, acts, n - 1);
      assert Act(run[n - 1], acts[n - 1], run[n]);
      LetGoStays(run[n - 1], acts[n - 1], run[n], h, run[i].table[h].id);
    }
  }
}
