/**
 The join/detach protocol of guest threads as a step machine: one step per critical
 section of the manager's mutex, with the wait for the worker outside of it.
 */
module ThreadManager {
  import opened Base

  type Tid = nat      // calling thread
  type Handle = nat   // guest-visible handle: the address of the record
  type Id = nat       // identity of a record and of its worker

  datatype Outcome = Outcome(completed: bool, value: U64)

  /** `started` says whether the record holds a worker; `claimant` names the last claimant. */
  datatype Record = Record(id: Id, started: bool, detached: bool, claimed: bool, claimant: Tid)

  datatype Pc =
    | Ret(code: int)
    | Claim(h: Handle, timed: bool)
    | Joining(h: Handle, id: Id, timed: bool)          // waits outside the lock, through the record's pointer
    | TimedOut(h: Handle, id: Id)
    | Threw(h: Handle, id: Id)
    | Joined(h: Handle, id: Id, result: Outcome)
    | Detach(h: Handle)
    | Create(detached: bool)
    | Size

  datatype Delivery = Delivery(id: Id, to: Tid, value: U64)

  /** `ended` maps a finished worker to its outcome; `next` is the next fresh identity. */
  datatype State = State(thr: map<Tid, Pc>, table: map<Handle, Record>, ended: map<Id, Outcome>, next: Id, root: Handle,
                         log: seq<Delivery>)

  predicate Reapable(x: State, r: Record) { r.detached && r.started && r.id in x.ended }

  function Reap(x: State): map<Handle, Record> {
    map h | h in x.table && !Reapable(x, x.table[h]) :: x.table[h]
  }

  /** The reaping loop erases while it iterates; it removes exactly the finished detached records. */
  method ReapLoop(x: State) returns (table: map<Handle, Record>)
    ensures table == Reap(x)
    ensures forall h :: h in x.table ==>
              (h !in table <==> x.table[h].detached && x.table[h].started && x.table[h].id in x.ended)
  {
    table := x.table;
    var left := x.table.Keys;
    while left != {}
      invariant left <= x.table.Keys && table.Keys <= x.table.Keys
      invariant forall h :: h in table ==> table[h] == x.table[h]
      invariant forall h :: h in x.table ==> (h in table <==> h in left || !Reapable(x, x.table[h]))
    {
      var h :| h in left;
      left := left - {h};
      if Reapable(x, x.table[h]) { table := table - {h}; }
    }
  }

  function At(x: State, t: Tid, pc: Pc): State { x.(thr := x.thr[t := pc]) }

  predicate Same(x: State, h: Handle, id: Id) { h in x.table && x.table[h].id == id }

  /** join_impl, first critical section. */
  function ClaimStep(x: State, t: Tid, h: Handle, timed: bool): State {
    if h !in x.table then At(x, t, Ret(ESRCH))
    else
      var r := x.table[h];
      if r.detached then At(x, t, Ret(EINVAL))
      else if r.claimed then At(x, t, Ret(ENOTSUP))
      else if !r.started then At(x, t, Ret(EINVAL))
      else At(x.(table := x.table[h := r.(claimed := true, claimant := t)]), t, Joining(h, r.id, timed))
  }

  function ReleaseStep(x: State, t: Tid, h: Handle, id: Id): State {
    At(if Same(x, h, id) then x.(table := x.table[h := x.table[h].(claimed := false)]) else x, t, Ret(ETIMEDOUT))
  }

  function ThrewStep(x: State, t: Tid, h: Handle, id: Id): State {
    At(if Same(x, h, id) then x.(table := x.table - {h}) else x, t, Ret(EINVAL))
  }

  function JoinedStep(x: State, t: Tid, h: Handle, id: Id, result: Outcome): State {
    if !Same(x, h, id) then At(x, t, Ret(ESRCH))
    else
      var erased := x.(table := x.table - {h});
      if result.completed then At(erased.(log := x.log + [Delivery(id, t, result.value)]), t, Ret(0))
      else At(erased, t, Ret(EINVAL))
  }

  function DetachStep(x: State, t: Tid, h: Handle): State {
    if h !in x.table then At(x, t, Ret(ESRCH))
    else if x.table[h].detached || x.table[h].claimed then At(x, t, Ret(EINVAL))
    else At(x.(table := x.table[h := x.table[h].(detached := true)]), t, Ret(0))
  }

  /** create under the lock: reap, publish the record at address `h`, start its worker or take the record back. */
  function CreateStep(x: State, t: Tid, detached: bool, h: Handle, starts: bool): State {
    var reaped := Reap(x);
    if h in reaped || !starts then At(x.(table := reaped, next := x.next + 1), t, Ret(EAGAIN))
    else At(x.(table := reaped[h := Record(x.next, true, detached, false, 0)], next := x.next + 1), t, Ret(0))
  }

  // ---- Steps and runs ---------------------------------------------------

  datatype Call =
    | CallJoin(h: Handle, timed: bool, deadlineOk: bool)
    | CallDetach(h: Handle)
    | CallCreate(detached: bool, argsOk: bool)
    | CallSize

  /** `current` is the caller's own handle, 0 for a thread the manager did not create. */
  function Entry(x: State, call: Call, current: Handle): Pc {
    match call
    case CallJoin(h, timed, deadlineOk) =>
      if timed && !deadlineOk then Ret(EINVAL)
      else if h == 0 then Ret(EINVAL)
      else if current != 0 && h == current then Ret(EDEADLK)
      else if h == x.root then Ret(EINVAL)
      else Claim(h, timed)
    case CallDetach(h) => if h == 0 then Ret(ESRCH) else if h == x.root then Ret(EINVAL) else Detach(h)
    case CallCreate(detached, argsOk) => if argsOk then Create(detached) else Ret(EINVAL)
    case CallSize => Size
  }

  datatype Action =
    | Enter(t: Tid, call: Call, current: Handle)
    | Step(t: Tid, h: Handle, starts: bool)
    | Expire(t: Tid)                       // a timed join gives up waiting
    | Throw(t: Tid)                        // the host join throws
    | Finish(id: Id, result: Outcome)      // a worker ends

  ghost predicate Act(x: State, a: Action, x': State) {
    match a
    case Enter(t, call, current) => t in x.thr && x.thr[t].Ret? && x' == At(x, t, Entry(x, call, current))
    case Expire(t) => t in x.thr && x.thr[t].Joining? && x.thr[t].timed
                      && x' == At(x, t, TimedOut(x.thr[t].h, x.thr[t].id))
    case Throw(t) => t in x.thr && x.thr[t].Joining? && x' == At(x, t, Threw(x.thr[t].h, x.thr[t].id))
    case Finish(id, result) => id < x.next && id !in x.ended && x' == x.(ended := x.ended[id := result])
    case Step(t, h, starts) =>
      t in x.thr &&
      match x.thr[t]
      case Ret(_) => false
      case Claim(g, timed) => x' == ClaimStep(x, t, g, timed)
      case Joining(g, id, _) => id in x.ended && x' == At(x, t, Joined(g, id, x.ended[id]))
      case TimedOut(g, id) => x' == ReleaseStep(x, t, g, id)
      case Threw(g, id) => x' == ThrewStep(x, t, g, id)
      case Joined(g, id, result) => x' == JoinedStep(x, t, g, id, result)
      case Detach(g) => x' == DetachStep(x, t, g)
      case Create(detached) => x' == CreateStep(x, t, detached, h, starts)
      case Size => x' == At(x.(table := Reap(x)), t, Ret(0))
  }

  ghost predicate Initial(x: State) {
    (forall t :: t in x.thr ==> x.thr[t] == Ret(0)) && x.table == map[] && x.ended == map[] && x.log == []
  }

  ghost predicate IsRun(run: seq<State>, acts: seq<Action>) {
    |run| == |acts| + 1 && Initial(run[0]) && forall i :: 0 <= i < |acts| ==> Act(run[i], acts[i], run[i + 1])
  }

  ghost predicate Reachable(x: State) {
    exists run, acts :: IsRun(run, acts) && run[|acts|] == x
  }

  // ---- Invariant --------------------------------------------------------

  /** The thread has claimed the record and not yet released or erased it. */
  predicate Claims(pc: Pc) { pc.Joining? || pc.TimedOut? || pc.Threw? || pc.Joined? }

  /** A claimant's record is in the table, claimed by it and not detached. */
  ghost predicate ClaimOk(x: State, t: Tid, pc: Pc) {
    Claims(pc) ==>
      && Same(x, pc.h, pc.id) && x.table[pc.h].claimed && x.table[pc.h].claimant == t && !x.table[pc.h].detached
      && (pc.Joined? ==> pc.id in x.ended && pc.result == x.ended[pc.id])
  }

  ghost predicate Claimants(x: State) {
    forall t {:trigger ClaimOk(x, t, x.thr[t])} :: t in x.thr ==> ClaimOk(x, t, x.thr[t])
  }

  ghost predicate RecordOk(x: State, h: Handle, r: Record) {
    && r.id < x.next && r.started && !(r.claimed && r.detached)
    && (r.claimed ==> r.claimant in x.thr && Claims(x.thr[r.claimant]) && x.thr[r.claimant].h == h
                      && x.thr[r.claimant].id == r.id)
  }

  ghost predicate Records(x: State) {
    && (forall h {:trigger RecordOk(x, h, x.table[h])} :: h in x.table ==> RecordOk(x, h, x.table[h]))
    && (forall g, h :: g in x.table && h in x.table && x.table[g].id == x.table[h].id ==> g == h)
  }

  /** A delivered result belongs to a record that is gone, and each record's result was delivered at most once. */
  ghost predicate Deliveries(x: State) {
    && (forall i :: 0 <= i < |x.log| ==> x.log[i].id < x.next && x.log[i].id in x.ended
                                         && x.ended[x.log[i].id] == Outcome(true, x.log[i].value))
    && (forall i, h :: 0 <= i < |x.log| && h in x.table ==> x.table[h].id != x.log[i].id)
    && (forall i, j :: 0 <= i < j < |x.log| ==> x.log[i].id != x.log[j].id)
  }

  ghost predicate Inv(x: State) { Claimants(x) && Records(x) && Deliveries(x) }

  // ---- Preservation -----------------------------------------------------

  /** Thread `t` moves to `pc'`; the records at other handles stay, or go while unclaimed. */
  ghost predicate Allowed(x: State, x': State, t: Tid, pc': Pc) {
    && t in x.thr && x'.thr == x.thr[t := pc'] && x'.ended == x.ended && x'.next >= x.next
    && ClaimOk(x', t, pc') && (Claims(pc') && Claims(x.thr[t]) ==> pc'.h == x.thr[t].h && pc'.id == x.thr[t].id)
    && (forall h :: h in x.table && x.table[h].claimed && x.table[h].claimant != t ==>
                      h in x'.table && x'.table[h] == x.table[h])
    && (forall h :: h in x'.table ==>
          var r := x'.table[h];
          && r.started && !(r.claimed && r.detached)
          && (if h in x.table && r.id == x.table[h].id then true else r.id == x.next < x'.next)
          && (r.claimed ==> if r.claimant == t then Claims(pc') && pc'.h == h && pc'.id == r.id
                            else h in x.table && r == x.table[h]))
    && (forall g, h :: g in x'.table && h in x'.table && x'.table[g].id == x'.table[h].id ==> g == h)
  }

  lemma KeepClaims(x: State, x': State, t: Tid, pc': Pc)
    requires Claimants(x) && Records(x) && Allowed(x, x', t, pc')
    ensures Claimants(x') && Records(x')
  {
    forall u | u in x'.thr ensures ClaimOk(x', u, x'.thr[u]) { if u != t { assert ClaimOk(x, u, x.thr[u]); } }
    forall h | h in x'.table ensures RecordOk(x', h, x'.table[h]) {
      if h in x.table { assert RecordOk(x, h, x.table[h]); }
    }
  }

  lemma KeepDeliveries(x: State, x': State, t: Tid, pc': Pc)
    requires Deliveries(x) && Allowed(x, x', t, pc') && x'.log == x.log
    ensures Deliveries(x')
  {
  }

  lemma ClaimAllowed(x: State, t: Tid, h: Handle, timed: bool)
    requires Records(x) && t in x.thr && x.thr[t] == Claim(h, timed)
    ensures var x' := ClaimStep(x, t, h, timed); Allowed(x, x', t, x'.thr[t]) && x'.log == x.log
  {
    forall g | g in x.table ensures RecordOk(x, g, x.table[g]) {}
  }

  /** A claimant drops its claim, with its record or without it. */
  lemma EndAllowed(x: State, t: Tid, table: map<Handle, Record>, log: seq<Delivery>, code: int)
    requires Records(x) && t in x.thr && Claims(x.thr[t]) && ClaimOk(x, t, x.thr[t])
    requires table == x.table - {x.thr[t].h} || table == x.table[x.thr[t].h := x.table[x.thr[t].h].(claimed := false)]
    ensures Allowed(x, At(x.(table := table, log := log), t, Ret(code)), t, Ret(code))
  {
    forall g | g in x.table ensures RecordOk(x, g, x.table[g]) {}
  }

  lemma DeliverOk(x: State, t: Tid)
    requires Records(x) && Deliveries(x) && t in x.thr && x.thr[t].Joined? && x.thr[t].result.completed
             && ClaimOk(x, t, x.thr[t])
    ensures var pc := x.thr[t];
      Deliveries(At(x.(table := x.table - {pc.h}, log := x.log + [Delivery(pc.id, t, pc.result.value)]), t, Ret(0)))
  {
    assert RecordOk(x, x.thr[t].h, x.table[x.thr[t].h]);
  }

  lemma JoinedPreserves(x: State, t: Tid, h: Handle, id: Id, result: Outcome)
    requires Inv(x) && t in x.thr && x.thr[t] == Joined(h, id, result)
    ensures Inv(JoinedStep(x, t, h, id, result))
  {
    assert ClaimOk(x, t, x.thr[t]);
    var x' := JoinedStep(x, t, h, id, result);
    EndAllowed(x, t, x'.table, x'.log, if result.completed then 0 else EINVAL);
    KeepClaims(x, x', t, x'.thr[t]);
    if result.completed { DeliverOk(x, t); } else { KeepDeliveries(x, x', t, x'.thr[t]); }
  }

  /** Calls that only touch unclaimed records. */
  lemma TableAllowed(x: State, t: Tid, table: map<Handle, Record>, next: Id, pc': Pc)
    requires Records(x) && t in x.thr && !Claims(x.thr[t]) && !Claims(pc') && next >= x.next
    requires forall h :: h in x.table && x.table[h].claimed ==> h in table && table[h] == x.table[h]
    requires forall h :: h in table ==>
               if h in x.table && table[h].id == x.table[h].id then table[h] == x.table[h]
                                                                    || table[h] == x.table[h].(detached := true)
               else table[h].id == x.next < next && table[h].started && !table[h].claimed
    requires forall g, h :: g in table && h in table && table[g].id == table[h].id == x.next ==> g == h
    ensures Allowed(x, At(x.(table := table, next := next), t, pc'), t, pc')
  {
    forall g | g in x.table ensures RecordOk(x, g, x.table[g]) {}
  }

  lemma FinishPreserves(x: State, id: Id, result: Outcome)
    requires Inv(x) && id !in x.ended
    ensures Inv(x.(ended := x.ended[id := result]))
  {
    var x' := x.(ended := x.ended[id := result]);
    forall u | u in x'.thr ensures ClaimOk(x', u, x'.thr[u]) { assert ClaimOk(x, u, x.thr[u]); }
    forall h | h in x'.table ensures RecordOk(x', h, x'.table[h]) { assert RecordOk(x, h, x.table[h]); }
  }

  lemma WaitAllowed(x: State, t: Tid, pc': Pc)
    requires Records(x) && t in x.thr && ClaimOk(x, t, x.thr[t]) && ClaimOk(At(x, t, pc'), t, pc')
    requires Claims(x.thr[t]) == Claims(pc') && (Claims(pc') ==> pc'.h == x.thr[t].h && pc'.id == x.thr[t].id)
    ensures Allowed(x, At(x, t, pc'), t, pc')
  {
    forall g | g in x.table ensures RecordOk(x, g, x.table[g]) {}
  }

  lemma MovePreserves(x: State, t: Tid, pc': Pc)
    requires Inv(x) && t in x.thr && ClaimOk(At(x, t, pc'), t, pc')
    requires Claims(x.thr[t]) == Claims(pc') && (Claims(pc') ==> pc'.h == x.thr[t].h && pc'.id == x.thr[t].id)
    ensures Inv(At(x, t, pc'))
  {
    assert ClaimOk(x, t, x.thr[t]);
    WaitAllowed(x, t, pc');
    KeepClaims(x, At(x, t, pc'), t, pc');
    KeepDeliveries(x, At(x, t, pc'), t, pc');
  }

  lemma AllowedPreserves(x: State, x': State, t: Tid, pc': Pc)
    requires Inv(x) && Allowed(x, x', t, pc') && x'.log == x.log
    ensures Inv(x')
  {
    KeepClaims(x, x', t, pc');
    KeepDeliveries(x, x', t, pc');
  }

  lemma ReapKeepsClaimed(x: State)
    requires Records(x)
    ensures forall h :: h in x.table && x.table[h].claimed ==> h in Reap(x) && Reap(x)[h] == x.table[h]
  {
    forall g | g in x.table ensures RecordOk(x, g, x.table[g]) {}
  }

  lemma CreateAllowed(x: State, t: Tid, h: Handle, starts: bool, x': State)
    requires Records(x) && Act(x, Step(t, h, starts), x') && x.thr[t].Create?
    ensures Allowed(x, x', t, x'.thr[t]) && x'.log == x.log
  {
    forall g | g in x.table ensures RecordOk(x, g, x.table[g]) {}
    ReapKeepsClaimed(x);
    TableAllowed(x, t, x'.table, x'.next, x'.thr[t]);
  }

  lemma DetachAllowed(x: State, t: Tid, h: Handle, starts: bool, x': State)
    requires Records(x) && Act(x, Step(t, h, starts), x') && (x.thr[t].Detach? || x.thr[t].Size?)
    ensures Allowed(x, x', t, x'.thr[t]) && x'.log == x.log
  {
    ReapKeepsClaimed(x);
    TableAllowed(x, t, x'.table, x'.next, x'.thr[t]);
  }

  lemma TableStepPreserves(x: State, t: Tid, h: Handle, starts: bool, x': State)
    requires Inv(x) && Act(x, Step(t, h, starts), x') && (x.thr[t].Detach? || x.thr[t].Create? || x.thr[t].Size?)
    ensures Inv(x')
  {
    if x.thr[t].Create? { CreateAllowed(x, t, h, starts, x'); } else { DetachAllowed(x, t, h, starts, x'); }
    AllowedPreserves(x, x', t, x'.thr[t]);
  }

  lemma EndPreserves(x: State, t: Tid, h: Handle, starts: bool, x': State)
    requires Inv(x) && Act(x, Step(t, h, starts), x') && (x.thr[t].TimedOut? || x.thr[t].Threw?)
    ensures Inv(x')
  {
    assert ClaimOk(x, t, x.thr[t]);
    EndAllowed(x, t, x'.table, x.log, x'.thr[t].code);
    AllowedPreserves(x, x', t, x'.thr[t]);
  }

  lemma StepPreserves(x: State, t: Tid, h: Handle, starts: bool, x': State)
    requires Inv(x) && Act(x, Step(t, h, starts), x')
    ensures Inv(x')
  {
    match x.thr[t]
    case Claim(g, timed) =>
      ClaimAllowed(x, t, g, timed);
      AllowedPreserves(x, x', t, x'.thr[t]);
    case Joining(g, id, _) =>
      assert ClaimOk(x, t, x.thr[t]);
      MovePreserves(x, t, x'.thr[t]);
    case Joined(g, id, result) => JoinedPreserves(x, t, g, id, result);
    case TimedOut(_, _) => EndPreserves(x, t, h, starts, x');
    case Threw(_, _) => EndPreserves(x, t, h, starts, x');
    case _ => TableStepPreserves(x, t, h, starts, x');
  }

  lemma ActPreserves(x: State, a: Action, x': State)
    requires Inv(x) && Act(x, a, x')
    ensures Inv(x')
  {
    match a
    case Enter(t, call, current) => MovePreserves(x, t, Entry(x, call, current));
    case Expire(t) =>
      assert ClaimOk(x, t, x.thr[t]);
      MovePreserves(x, t, x'.thr[t]);
    case Throw(t) =>
      assert ClaimOk(x, t, x.thr[t]);
      MovePreserves(x, t, x'.thr[t]);
    case Finish(id, result) => FinishPreserves(x, id, result);
    case Step(t, h, starts) => StepPreserves(x, t, h, starts, x');
  }

  lemma {:induction false} RunsKeepInv(run: seq<State>, acts: seq<Action>, i: nat)
    requires IsRun(run, acts) && i < |run|
    ensures Inv(run[i])
  {
    if i > 0 {
      RunsKeepInv(run, acts, i - 1);
      ActPreserves(run[i - 1], acts[i - 1], run[i]);
    }
  }

  lemma ReachableInv(x: State)
    requires Reachable(x)
    ensures Inv(x)
  {
    var run, acts :| IsRun(run, acts) && run[|acts|] == x;
    RunsKeepInv(run, acts, |acts|);
  }

  // ---- What holds in every run ------------------------------------------

  /** No record is both detached and claimed, and the pointer a claimant uses outside the lock is its live record. */
  lemma ClaimsStayValid(x: State)
    requires Reachable(x)
    ensures forall h :: h in x.table ==> !(x.table[h].detached && x.table[h].claimed)
    ensures forall t :: t in x.thr && Claims(x.thr[t]) ==>
                          Same(x, x.thr[t].h, x.thr[t].id) && x.table[x.thr[t].h].claimed
  {
    ReachableInv(x);
    forall h | h in x.table ensures !(x.table[h].detached && x.table[h].claimed) { assert RecordOk(x, h, x.table[h]); }
    forall t | t in x.thr && Claims(x.thr[t]) ensures Same(x, x.thr[t].h, x.thr[t].id) && x.table[x.thr[t].h].claimed {
      assert ClaimOk(x, t, x.thr[t]);
    }
  }

  lemma ClaimantStays(x: State, a: Action, x': State, t: Tid)
    requires Act(x, a, x') && t in x.thr && Claims(x.thr[t]) && !(a.Step? && a.t == t)
    ensures t in x'.thr && Claims(x'.thr[t]) && x'.thr[t].h == x.thr[t].h && x'.thr[t].id == x.thr[t].id
  {
  }

  /** A claimed record disappears only in a step of its claimant. */
  lemma OnlyClaimantRemoves(x: State, a: Action, x': State, t: Tid)
    requires Reachable(x) && Act(x, a, x') && t in x.thr && Claims(x.thr[t])
    ensures Same(x', x.thr[t].h, x.thr[t].id) || (a.Step? && a.t == t)
  {
    ReachableInv(x);
    ActPreserves(x, a, x');
    if !(a.Step? && a.t == t) {
      ClaimantStays(x, a, x', t);
      assert ClaimOk(x', t, x'.thr[t]);
    }
  }

  /** The ESRCH re-check after a join is dead: the joiner always erases its record and reports its worker's outcome. */
  lemma JoinNeverLosesRecord(x: State, t: Tid, h: Handle, starts: bool, x': State, g: Handle, id: Id, result: Outcome)
    requires Reachable(x) && Act(x, Step(t, h, starts), x') && x.thr[t] == Joined(g, id, result)
    ensures x'.thr[t] == Ret(if result.completed then 0 else EINVAL) && x'.table == x.table - {g}
    ensures id in x.ended && result == x.ended[id]
  {
    ReachableInv(x);
    assert ClaimOk(x, t, x.thr[t]);
  }

  /** Each worker's result reaches at most one joiner, and it is the worker's own value. */
  lemma DeliveredOnce(x: State, i: nat, j: nat)
    requires Reachable(x) && i < |x.log| && j < |x.log| && x.log[i].id == x.log[j].id
    ensures i == j && x.log[i].id in x.ended && x.ended[x.log[i].id] == Outcome(true, x.log[i].value)
  {
    ReachableInv(x);
  }

  /** A timed-out join leaves the handle joinable: the next join claims the same record. */
  lemma TimedOutLeavesJoinable(x: State, t: Tid, h: Handle, starts: bool, x': State, g: Handle, id: Id, u: Tid,
                               timed: bool)
    requires Reachable(x) && Act(x, Step(t, h, starts), x') && x.thr[t] == TimedOut(g, id)
    ensures x'.thr[t] == Ret(ETIMEDOUT) && Same(x', g, id) && !x'.table[g].claimed && !x'.table[g].detached
    ensures ClaimStep(x', u, g, timed).thr[u] == Joining(g, id, timed)
  {
    ReachableInv(x);
    assert ClaimOk(x, t, x.thr[t]) && RecordOk(x, g, x.table[g]);
  }
}
