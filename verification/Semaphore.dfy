/**
 Guest counting semaphores as a step machine over any number of threads: one step per
 stretch between host-lock acquisitions, with sleeps, time-outs and notifications explicit.
 */
module Semaphore {
  import opened Base

  type Tid = nat
  type Sid = nat

  const VALUE_MAX: nat := 0x7fff_ffff

  /** `handle` is the table key the record was published under; it never changes. */
  datatype Rec = Rec(value: nat, waiters: nat, handle: U64)

  /** `valid` says whether the timeout pointer of sem_timed_wait holds a well-formed timespec. */
  datatype Req = Init(value: nat) | Destroy | Wait(timed: bool) | Try | TimedTry(valid: bool) | Post | Get

  datatype Pc =
    | Ret(code: int)
    | Table(slot: U64, req: Req)                       // wants the table lock
    | Record(slot: U64, h: U64, s: Sid, req: Req)      // holds the table lock, wants the record lock
    | Loose(slot: U64, s: Sid, req: Req)               // wants the record lock, holds nothing
    | Asleep(s: Sid, timed: bool)
    | Woken(s: Sid, timed: bool, expired: bool)        // wants the record lock again
    | Notify(s: Sid)                                   // posted, about to notify_all

  datatype Event = Created(s: Sid, value: nat) | Posted(s: Sid) | Taken(s: Sid)

  datatype State = State(thr: map<Tid, Pc>, rec: map<Sid, Rec>, tab: map<U64, Sid>, mem: map<U64, U64>, wr: set<U64>,
                         log: seq<Event>)

  /** Tokens a semaphore holds according to the results given to the guest. */
  function Tokens(log: seq<Event>, s: Sid): int {
    if log == [] then 0 else
      var e, before := log[|log| - 1], Tokens(log[..|log| - 1], s);
      if e.s != s then before
      else match e
        case Created(_, v) => v
        case Posted(_) => before + 1
        case Taken(_) => before - 1
  }

  function At(x: State, t: Tid, pc: Pc): State { x.(thr := x.thr[t := pc]) }

  /** The table entry a slot names, if any. */
  function Lookup(x: State, slot: U64): Option<Sid> {
    if slot != 0 && slot in x.mem && x.mem[slot] != 0 && x.mem[slot] in x.tab then Some(x.tab[x.mem[slot]]) else None
  }

  function TableStep(x: State, t: Tid, slot: U64, req: Req, id: Sid, h: U64): State {
    if req.Init? then
      if slot in x.wr
      then At(x.(rec := x.rec[id := Rec(req.value, 0, h)], tab := x.tab[h := id], mem := x.mem[slot := h],
                 log := x.log + [Created(id, req.value)]), t, Ret(0))
      else At(x, t, Ret(EINVAL))
    else match Lookup(x, slot)
      case None => At(x, t, Ret(EINVAL))
      case Some(s) => At(x, t, if req.Destroy? || req.Wait? then Record(slot, x.mem[slot], s, req)
                               else Loose(slot, s, req))
  }

  function SetRec(x: State, s: Sid, r: Rec, evs: seq<Event>): State { x.(rec := x.rec[s := r], log := x.log + evs) }

  function Consume(x: State, t: Tid, s: Sid, waiters: nat): State
    requires s in x.rec && x.rec[s].value > 0
  {
    At(SetRec(x, s, x.rec[s].(value := x.rec[s].value - 1, waiters := waiters), [Taken(s)]), t, Ret(0))
  }

  /** sem_wait under table and record: take a token, or publish a waiter and sleep. */
  function WaitStep(x: State, t: Tid, s: Sid, timed: bool): State
    requires s in x.rec
  {
    if x.rec[s].value != 0 then Consume(x, t, s, x.rec[s].waiters)
    else At(SetRec(x, s, x.rec[s].(waiters := x.rec[s].waiters + 1), []), t, Asleep(s, timed))
  }

  /** sem_destroy under table and record; it reads the slot a second time to choose what to erase. */
  function DestroyStep(x: State, t: Tid, slot: U64, s: Sid): State
    requires s in x.rec
  {
    if x.rec[s].waiters != 0 then At(x, t, Ret(EBUSY))
    else if slot !in x.mem || slot !in x.wr then At(x, t, Ret(EINVAL))
    else At(x.(tab := x.tab - {x.mem[slot]}, mem := x.mem[slot := 0]), t, Ret(0))
  }

  /** The record-only calls, made without the table lock. */
  function LooseStep(x: State, t: Tid, slot: U64, s: Sid, req: Req): State
    requires s in x.rec
  {
    var r := x.rec[s];
    match req
    case Try => if r.value == 0 then At(x, t, Ret(EAGAIN)) else Consume(x, t, s, r.waiters)
    case TimedTry(valid) =>
      if r.value != 0 then Consume(x, t, s, r.waiters)
      else if !valid then At(x, t, Ret(EINVAL))
      else At(x, t, Table(slot, Wait(true)))
    case Post =>
      if r.value == VALUE_MAX then At(x, t, Ret(EOVERFLOW))
      else At(SetRec(x, s, r.(value := r.value + 1), [Posted(s)]), t, Notify(s))
    case _ => At(x, t, Ret(0))
  }

  /** A woken waiter re-checks the value; an expired one gives up if there is still no token. */
  function WokenStep(x: State, t: Tid, s: Sid, timed: bool, expired: bool): State
    requires s in x.rec && x.rec[s].waiters > 0
  {
    var r := x.rec[s];
    if r.value != 0 then Consume(x, t, s, r.waiters - 1)
    else if expired then At(SetRec(x, s, r.(waiters := r.waiters - 1), []), t, Ret(ETIMEDOUT))
    else At(x, t, Asleep(s, timed))
  }

  /** notify_all: every sleeper on `s` wakes. */
  function WakeAll(thr: map<Tid, Pc>, s: Sid): map<Tid, Pc> {
    map v | v in thr :: if thr[v].Asleep? && thr[v].s == s then Woken(s, thr[v].timed, false) else thr[v]
  }

  // ---- Steps and runs ---------------------------------------------------

  datatype Action =
    | Call(t: Tid, slot: U64, req: Req)
    | Run(t: Tid, id: Sid, h: U64, expire: bool)
    | GuestStore(mem: map<U64, U64>, wr: set<U64>)

  /** Only the table lock is ever held while waiting for another lock. */
  ghost predicate TableFree(x: State, t: Tid) {
    forall u :: u in x.thr && u != t ==> !x.thr[u].Record?
  }

  function Entry(x: State, slot: U64, req: Req): Pc {
    if req.Init? && req.value > VALUE_MAX then Ret(EINVAL)
    else if req.Init? && slot == 0 then Ret(0)
    else if (req.Init? || req.Destroy?) && (slot == 0 || slot !in x.wr) then Ret(EINVAL)
    else Table(slot, req)
  }

  ghost predicate Act(x: State, a: Action, x': State) {
    match a
    case GuestStore(mem, wr) => x' == x.(mem := mem, wr := wr)
    case Call(t, slot, req) => t in x.thr && x.thr[t].Ret? && x' == At(x, t, Entry(x, slot, req))
    case Run(t, id, h, expire) =>
      t in x.thr &&
      match x.thr[t]
      case Ret(_) => false
      case Table(slot, req) => TableFree(x, t) && id !in x.rec && h != 0 && h !in x.tab
                               && x' == TableStep(x, t, slot, req, id, h)
      case Record(slot, _, s, req) =>
        s in x.rec && x' == if req.Wait? then WaitStep(x, t, s, req.timed) else DestroyStep(x, t, slot, s)
      case Loose(slot, s, req) => s in x.rec && x' == LooseStep(x, t, slot, s, req)
      case Asleep(s, timed) => x' == At(x, t, Woken(s, timed, timed && expire))      // timeout or spurious
      case Woken(s, timed, expired) => s in x.rec && x.rec[s].waiters > 0 && x' == WokenStep(x, t, s, timed, expired)
      case Notify(s) => x' == At(x.(thr := WakeAll(x.thr, s)), t, Ret(0))
  }

  /** A destroy that would erase a handle other than the one it checked, while that semaphore has waiters. */
  ghost predicate Rebound(x: State, a: Action) {
    a.Run? && a.t in x.thr && x.thr[a.t].Record? && x.thr[a.t].req.Destroy? &&
    var pc := x.thr[a.t];
    && pc.s in x.rec && x.rec[pc.s].waiters == 0 && pc.slot in x.mem && pc.slot in x.wr
    && x.mem[pc.slot] in x.tab && x.tab[x.mem[pc.slot]] in x.rec && x.rec[x.tab[x.mem[pc.slot]]].waiters > 0
  }

  ghost predicate Initial(x: State) {
    (forall t :: t in x.thr ==> x.thr[t] == Ret(0)) && x.rec == map[] && x.tab == map[] && x.log == []
  }

  ghost predicate IsRun(run: seq<State>, acts: seq<Action>) {
    && |run| == |acts| + 1 && Initial(run[0])
    && forall i :: 0 <= i < |acts| ==> Act(run[i], acts[i], run[i + 1])
  }

  ghost predicate Reachable(x: State) {
    exists run, acts :: IsRun(run, acts) && run[|acts|] == x
  }

  // ---- Invariant --------------------------------------------------------

  predicate WaitsOn(pc: Pc, s: Sid) { (pc.Asleep? || pc.Woken?) && pc.s == s }

  ghost function Waiters(thr: map<Tid, Pc>, s: Sid): set<Tid> { set v | v in thr && WaitsOn(thr[v], s) }

  ghost predicate Live(x: State, s: Sid) { s in x.rec && x.rec[s].handle in x.tab && x.tab[x.rec[s].handle] == s }

  ghost predicate Exclusive(x: State) {
    forall t, u :: t in x.thr && u in x.thr && x.thr[t].Record? && x.thr[u].Record? ==> t == u
  }

  ghost predicate Tables(x: State) {
    forall h :: h in x.tab ==> h != 0 && x.tab[h] in x.rec && x.rec[x.tab[h]].handle == h
  }

  ghost predicate ThreadOk(x: State, pc: Pc) {
    match pc
    case Ret(_) => true
    case Table(_, req) => req.Init? ==> req.value <= VALUE_MAX
    case Record(_, h, s, req) => h in x.tab && x.tab[h] == s && (req.Wait? || req.Destroy?)
    case Loose(_, s, _) => s in x.rec
    case Asleep(s, _) => s in x.rec
    case Woken(s, _, _) => s in x.rec
    case Notify(s) => s in x.rec
  }

  ghost predicate Threads(x: State) {
    forall t {:trigger ThreadOk(x, x.thr[t])} :: t in x.thr ==> ThreadOk(x, x.thr[t])
  }

  ghost predicate RecOk(x: State, s: Sid, r: Rec) {
    r.value <= VALUE_MAX && r.value == Tokens(x.log, s) && r.waiters == |Waiters(x.thr, s)|
  }

  ghost predicate Records(x: State) {
    forall s {:trigger RecOk(x, s, x.rec[s])} :: s in x.rec ==> RecOk(x, s, x.rec[s])
  }

  /** A notify_all on `s` is pending. */
  ghost predicate Notified(thr: map<Tid, Pc>, s: Sid) { exists u :: u in thr && thr[u] == Notify(s) }

  /** Tokens available and a sleeper imply a pending notify_all. */
  ghost predicate NoLostWakeup(x: State) {
    forall v :: v in x.thr && x.thr[v].Asleep? && x.thr[v].s in x.rec && x.rec[x.thr[v].s].value > 0 ==>
      Notified(x.thr, x.thr[v].s)
  }

  ghost predicate Inv(x: State) { Exclusive(x) && Tables(x) && Threads(x) && Records(x) && NoLostWakeup(x) }

  // ---- Preservation -----------------------------------------------------

  lemma OneWaiter(thr: map<Tid, Pc>, t: Tid, pc': Pc, s: Sid)
    requires t in thr
    ensures |Waiters(thr[t := pc'], s)| + (if WaitsOn(thr[t], s) then 1 else 0)
         == |Waiters(thr, s)| + (if WaitsOn(pc', s) then 1 else 0)
  {
    var a, b := Waiters(thr[t := pc'], s), Waiters(thr, s);
    if WaitsOn(pc', s) == WaitsOn(thr[t], s) {
      assert a == b;
    } else if WaitsOn(pc', s) {
      assert a == b + {t};
    } else {
      assert b == a + {t};
    }
  }

  lemma TokensAppend(log: seq<Event>, e: Event, s: Sid)
    ensures Tokens(log + [e], s) == if e.s != s then Tokens(log, s)
                                    else match e
                                         case Created(_, v) => v
                                         case Posted(_) => Tokens(log, s) + 1
                                         case Taken(_) => Tokens(log, s) - 1
  {
    assert (log + [e])[..|log|] == log;
  }

  /** Replace record `s` by `r` and move thread `t` to `pc'`. */
  function Put(x: State, t: Tid, s: Sid, r: Rec, evs: seq<Event>, pc': Pc): State {
    At(SetRec(x, s, r, evs), t, pc')
  }

  ghost predicate Puttable(x: State, t: Tid, s: Sid, r: Rec, evs: seq<Event>, pc': Pc) {
    && t in x.thr && s in x.rec && var pc, r0 := x.thr[t], x.rec[s];
    && r.handle == r0.handle && r.value <= VALUE_MAX
    && (pc'.Record? ==> pc.Record? || TableFree(x, t)) && ThreadOk(x, pc') && !pc.Notify?
    && (forall z :: z != s ==> WaitsOn(pc', z) == WaitsOn(pc, z))
    && r.waiters + (if WaitsOn(pc, s) then 1 else 0) == r0.waiters + (if WaitsOn(pc', s) then 1 else 0)
    && |evs| <= 1 && (evs != [] ==> evs[0].s == s) && Tokens(x.log + evs, s) == r.value
    && (pc'.Asleep? ==> pc'.s == s && r.value == 0)
    && (r.value > r0.value ==> pc' == Notify(s))
  }

  lemma PutRecords(x: State, t: Tid, s: Sid, r: Rec, evs: seq<Event>, pc': Pc)
    requires Records(x) && Puttable(x, t, s, r, evs, pc')
    ensures Records(Put(x, t, s, r, evs, pc'))
  {
    var x' := Put(x, t, s, r, evs, pc');
    forall z | z in x'.rec ensures RecOk(x', z, x'.rec[z]) {
      assert RecOk(x, z, x.rec[z]);
      OneWaiter(x.thr, t, pc', z);
      if evs == [] { assert x'.log == x.log; } else { assert evs == [evs[0]]; TokensAppend(x.log, evs[0], z); }
    }
  }

  lemma PutWakeups(x: State, t: Tid, s: Sid, r: Rec, evs: seq<Event>, pc': Pc)
    requires NoLostWakeup(x) && Puttable(x, t, s, r, evs, pc')
    ensures NoLostWakeup(Put(x, t, s, r, evs, pc'))
  {
    var x' := Put(x, t, s, r, evs, pc');
    forall v | v in x'.thr && x'.thr[v].Asleep? && x'.thr[v].s in x'.rec && x'.rec[x'.thr[v].s].value > 0
      ensures Notified(x'.thr, x'.thr[v].s)
    {
      var z := x'.thr[v].s;
      if pc' == Notify(z) {
        assert x'.thr[t] == Notify(z);
      } else {
        var u :| u in x.thr && x.thr[u] == Notify(z);
        assert x'.thr[u] == Notify(z);
      }
    }
  }

  lemma PutThreads(x: State, t: Tid, s: Sid, r: Rec, evs: seq<Event>, pc': Pc)
    requires Exclusive(x) && Tables(x) && Threads(x) && Puttable(x, t, s, r, evs, pc')
    ensures var x' := Put(x, t, s, r, evs, pc'); Exclusive(x') && Tables(x') && Threads(x')
  {
    var x' := Put(x, t, s, r, evs, pc');
    forall u | u in x'.thr ensures ThreadOk(x', x'.thr[u]) { assert ThreadOk(x, if u == t then pc' else x.thr[u]); }
  }

  lemma PutKeepsInv(x: State, t: Tid, s: Sid, r: Rec, evs: seq<Event>, pc': Pc)
    requires Inv(x) && Puttable(x, t, s, r, evs, pc')
    ensures Inv(Put(x, t, s, r, evs, pc'))
  {
    PutThreads(x, t, s, r, evs, pc');
    PutRecords(x, t, s, r, evs, pc');
    PutWakeups(x, t, s, r, evs, pc');
  }

  ghost predicate Movable(x: State, t: Tid, pc': Pc) {
    && t in x.thr && ThreadOk(x, pc') && !x.thr[t].Notify? && (pc'.Record? ==> x.thr[t].Record? || TableFree(x, t))
    && (forall z :: WaitsOn(pc', z) == WaitsOn(x.thr[t], z)) && (pc'.Asleep? ==> x.rec[pc'.s].value == 0)
  }

  lemma MoveRecords(x: State, t: Tid, pc': Pc)
    requires Records(x) && NoLostWakeup(x) && Movable(x, t, pc')
    ensures Records(At(x, t, pc')) && NoLostWakeup(At(x, t, pc'))
  {
    var x' := At(x, t, pc');
    forall z | z in x'.rec ensures RecOk(x', z, x'.rec[z]) {
      assert RecOk(x, z, x.rec[z]);
      OneWaiter(x.thr, t, pc', z);
    }
    forall v | v in x'.thr && x'.thr[v].Asleep? && x'.thr[v].s in x'.rec && x'.rec[x'.thr[v].s].value > 0
      ensures Notified(x'.thr, x'.thr[v].s)
    {
      var u :| u in x.thr && x.thr[u] == Notify(x'.thr[v].s);
      assert x'.thr[u] == Notify(x'.thr[v].s);
    }
  }

  /** A move that touches no record. */
  lemma MoveKeepsInv(x: State, t: Tid, pc': Pc)
    requires Inv(x) && Movable(x, t, pc')
    ensures Inv(At(x, t, pc'))
  {
    var x' := At(x, t, pc');
    MoveRecords(x, t, pc');
    forall u | u in x'.thr ensures ThreadOk(x', x'.thr[u]) { assert ThreadOk(x, if u == t then pc' else x.thr[u]); }
  }

  lemma CreateRecords(x: State, t: Tid, slot: U64, value: nat, id: Sid, h: U64)
    requires Records(x) && Threads(x) && Tables(x) && t in x.thr && x.thr[t] == Table(slot, Init(value))
    requires id !in x.rec && h != 0 && h !in x.tab && slot in x.wr
    ensures Records(TableStep(x, t, slot, Init(value), id, h))
  {
    var x' := TableStep(x, t, slot, Init(value), id, h);
    assert ThreadOk(x, x.thr[t]);
    forall z | z in x'.rec ensures RecOk(x', z, x'.rec[z]) {
      OneWaiter(x.thr, t, Ret(0), z);
      TokensAppend(x.log, Created(id, value), z);
      if z == id {
        forall v | v in x.thr ensures !WaitsOn(x.thr[v], id) { assert ThreadOk(x, x.thr[v]); }
        assert Waiters(x.thr, id) == {};
      } else {
        assert RecOk(x, z, x.rec[z]);
      }
    }
  }

  lemma CreateWakeups(x: State, t: Tid, slot: U64, value: nat, id: Sid, h: U64)
    requires NoLostWakeup(x) && Threads(x) && t in x.thr && x.thr[t] == Table(slot, Init(value)) && id !in x.rec
             && slot in x.wr
    ensures NoLostWakeup(TableStep(x, t, slot, Init(value), id, h))
  {
    var x' := TableStep(x, t, slot, Init(value), id, h);
    forall v | v in x'.thr && x'.thr[v].Asleep? && x'.thr[v].s in x'.rec && x'.rec[x'.thr[v].s].value > 0
      ensures Notified(x'.thr, x'.thr[v].s)
    {
      assert ThreadOk(x, x.thr[v]);
      var u :| u in x.thr && x.thr[u] == Notify(x'.thr[v].s);
      assert x'.thr[u] == Notify(x'.thr[v].s);
    }
  }

  lemma CreateKeepsInv(x: State, t: Tid, slot: U64, value: nat, id: Sid, h: U64)
    requires Inv(x) && t in x.thr && x.thr[t] == Table(slot, Init(value)) && id !in x.rec && h != 0 && h !in x.tab
             && slot in x.wr
    ensures Inv(TableStep(x, t, slot, Init(value), id, h))
  {
    var x' := TableStep(x, t, slot, Init(value), id, h);
    CreateRecords(x, t, slot, value, id, h);
    CreateWakeups(x, t, slot, value, id, h);
    forall u | u in x'.thr ensures ThreadOk(x', x'.thr[u]) { assert ThreadOk(x, x.thr[u]); }
  }

  lemma TablePreserves(x: State, t: Tid, slot: U64, req: Req, id: Sid, h: U64)
    requires Inv(x) && t in x.thr && x.thr[t] == Table(slot, req) && TableFree(x, t) && id !in x.rec && h != 0
             && h !in x.tab
    ensures Inv(TableStep(x, t, slot, req, id, h))
  {
    var x' := TableStep(x, t, slot, req, id, h);
    if req.Init? && slot in x.wr {
      CreateKeepsInv(x, t, slot, req.value, id, h);
    } else {
      MoveKeepsInv(x, t, x'.thr[t]);
    }
  }

  /** What a record step needs to know of its record. */
  lemma RecordFacts(x: State, s: Sid)
    requires Inv(x) && s in x.rec
    ensures x.rec[s].value <= VALUE_MAX && Tokens(x.log + [], s) == Tokens(x.log, s) == x.rec[s].value
    ensures Tokens(x.log + [Taken(s)], s) == x.rec[s].value - 1 && Tokens(x.log + [Posted(s)], s) == x.rec[s].value + 1
  {
    assert RecOk(x, s, x.rec[s]) && x.log + [] == x.log;
    TokensAppend(x.log, Taken(s), s);
    TokensAppend(x.log, Posted(s), s);
  }

  lemma ConsumePreserves(x: State, t: Tid, s: Sid, waiters: nat)
    requires Inv(x) && t in x.thr && s in x.rec && x.rec[s].value > 0 && !x.thr[t].Notify?
    requires forall z :: z != s ==> !WaitsOn(x.thr[t], z)
    requires waiters + (if WaitsOn(x.thr[t], s) then 1 else 0) == x.rec[s].waiters
    ensures Inv(Consume(x, t, s, waiters))
  {
    RecordFacts(x, s);
    PutKeepsInv(x, t, s, x.rec[s].(value := x.rec[s].value - 1, waiters := waiters), [Taken(s)], Ret(0));
  }

  lemma SleepPreserves(x: State, t: Tid, s: Sid, slot: U64, h: U64, timed: bool)
    requires Inv(x) && t in x.thr && s in x.rec && x.thr[t] == Record(slot, h, s, Wait(timed)) && x.rec[s].value == 0
    ensures Inv(Put(x, t, s, x.rec[s].(waiters := x.rec[s].waiters + 1), [], Asleep(s, timed)))
  {
    assert ThreadOk(x, x.thr[t]);
    RecordFacts(x, s);
    PutKeepsInv(x, t, s, x.rec[s].(waiters := x.rec[s].waiters + 1), [], Asleep(s, timed));
  }

  lemma WaitPreserves(x: State, t: Tid, slot: U64, h: U64, s: Sid, timed: bool)
    requires Inv(x) && t in x.thr && s in x.rec && x.thr[t] == Record(slot, h, s, Wait(timed))
    ensures Inv(WaitStep(x, t, s, timed))
  {
    if x.rec[s].value != 0 { ConsumePreserves(x, t, s, x.rec[s].waiters); }
    else { SleepPreserves(x, t, s, slot, h, timed); }
  }

  lemma PostPreserves(x: State, t: Tid, slot: U64, s: Sid, req: Req)
    requires Inv(x) && t in x.thr && s in x.rec && x.thr[t] == Loose(slot, s, req) && x.rec[s].value != VALUE_MAX
    ensures Inv(Put(x, t, s, x.rec[s].(value := x.rec[s].value + 1), [Posted(s)], Notify(s)))
  {
    RecordFacts(x, s);
    PutKeepsInv(x, t, s, x.rec[s].(value := x.rec[s].value + 1), [Posted(s)], Notify(s));
  }

  lemma LooseShape(x: State, t: Tid, slot: U64, s: Sid, req: Req)
    requires t in x.thr && s in x.rec && x.thr[t] == Loose(slot, s, req)
    ensures var r, x' := x.rec[s], LooseStep(x, t, slot, s, req);
            || (r.value != 0 && x' == Consume(x, t, s, r.waiters))
            || (r.value != VALUE_MAX && x' == Put(x, t, s, r.(value := r.value + 1), [Posted(s)], Notify(s)))
            || (x' == At(x, t, x'.thr[t]) && Movable(x, t, x'.thr[t]))
  {
  }

  lemma LoosePreserves(x: State, t: Tid, slot: U64, s: Sid, req: Req)
    requires Inv(x) && t in x.thr && s in x.rec && x.thr[t] == Loose(slot, s, req)
    ensures Inv(LooseStep(x, t, slot, s, req))
  {
    LooseShape(x, t, slot, s, req);
    var r, x' := x.rec[s], LooseStep(x, t, slot, s, req);
    if r.value != 0 && x' == Consume(x, t, s, r.waiters) {
      ConsumePreserves(x, t, s, r.waiters);
    } else if r.value != VALUE_MAX && x' == Put(x, t, s, r.(value := r.value + 1), [Posted(s)], Notify(s)) {
      PostPreserves(x, t, slot, s, req);
    } else {
      MoveKeepsInv(x, t, x'.thr[t]);
    }
  }

  lemma GivesUpPreserves(x: State, t: Tid, s: Sid, timed: bool)
    requires Inv(x) && t in x.thr && s in x.rec && x.rec[s].waiters > 0 && x.thr[t] == Woken(s, timed, true)
    ensures Inv(Put(x, t, s, x.rec[s].(waiters := x.rec[s].waiters - 1), [], Ret(ETIMEDOUT)))
  {
    RecordFacts(x, s);
    PutKeepsInv(x, t, s, x.rec[s].(waiters := x.rec[s].waiters - 1), [], Ret(ETIMEDOUT));
  }

  lemma WokenPreserves(x: State, t: Tid, s: Sid, timed: bool, expired: bool)
    requires Inv(x) && t in x.thr && s in x.rec && x.rec[s].waiters > 0 && x.thr[t] == Woken(s, timed, expired)
    ensures Inv(WokenStep(x, t, s, timed, expired))
  {
    if x.rec[s].value != 0 {
      ConsumePreserves(x, t, s, x.rec[s].waiters - 1);
    } else if expired {
      GivesUpPreserves(x, t, s, timed);
    } else {
      MoveKeepsInv(x, t, Asleep(s, timed));
    }
  }

  lemma DropKeepsInv(x: State, h: U64, mem: map<U64, U64>)
    requires Inv(x) && (forall u :: u in x.thr ==> !x.thr[u].Record?)
    ensures Inv(x.(tab := x.tab - {h}, mem := mem))
  {
    var x' := x.(tab := x.tab - {h}, mem := mem);
    forall u | u in x'.thr ensures ThreadOk(x', x'.thr[u]) { assert ThreadOk(x, x.thr[u]); }
    forall z | z in x'.rec ensures RecOk(x', z, x'.rec[z]) { assert RecOk(x, z, x.rec[z]); }
  }

  lemma DestroyPreserves(x: State, a: Action, slot: U64, h: U64, s: Sid)
    requires Inv(x) && a.Run? && a.t in x.thr && s in x.rec && x.thr[a.t] == Record(slot, h, s, Destroy)
    ensures Inv(DestroyStep(x, a.t, slot, s))
  {
    if x.rec[s].waiters != 0 {
      MoveKeepsInv(x, a.t, Ret(EBUSY));
    } else if slot !in x.mem || slot !in x.wr {
      MoveKeepsInv(x, a.t, Ret(EINVAL));
    } else {
      MoveKeepsInv(x, a.t, Ret(0));
      var mid := At(x, a.t, Ret(0));
      assert forall u :: u in mid.thr ==> !mid.thr[u].Record?;
      DropKeepsInv(mid, x.mem[slot], x.mem[slot := 0]);
    }
  }

  lemma WakeAllWaiters(thr: map<Tid, Pc>, s: Sid, z: Sid)
    ensures Waiters(WakeAll(thr, s), z) == Waiters(thr, z)
  {
  }

  lemma NotifyWakeups(x: State, t: Tid, s: Sid)
    requires NoLostWakeup(x) && t in x.thr && x.thr[t] == Notify(s)
    ensures NoLostWakeup(At(x.(thr := WakeAll(x.thr, s)), t, Ret(0)))
  {
    var x' := At(x.(thr := WakeAll(x.thr, s)), t, Ret(0));
    forall v | v in x'.thr && x'.thr[v].Asleep? && x'.thr[v].s in x'.rec && x'.rec[x'.thr[v].s].value > 0
      ensures Notified(x'.thr, x'.thr[v].s)
    {
      assert x.thr[v] == x'.thr[v] && x.thr[v].s != s;
      var u :| u in x.thr && x.thr[u] == Notify(x'.thr[v].s);
      assert x'.thr[u] == Notify(x'.thr[v].s);
    }
  }

  lemma NotifyRecords(x: State, t: Tid, s: Sid)
    requires Records(x) && t in x.thr && x.thr[t] == Notify(s)
    ensures Records(At(x.(thr := WakeAll(x.thr, s)), t, Ret(0)))
  {
    var x' := At(x.(thr := WakeAll(x.thr, s)), t, Ret(0));
    forall z | z in x'.rec ensures RecOk(x', z, x'.rec[z]) {
      assert RecOk(x, z, x.rec[z]);
      WakeAllWaiters(x.thr, s, z);
      OneWaiter(WakeAll(x.thr, s), t, Ret(0), z);
    }
  }

  lemma NotifyPreserves(x: State, t: Tid, s: Sid)
    requires Inv(x) && t in x.thr && x.thr[t] == Notify(s)
    ensures Inv(At(x.(thr := WakeAll(x.thr, s)), t, Ret(0)))
  {
    var x' := At(x.(thr := WakeAll(x.thr, s)), t, Ret(0));
    NotifyWakeups(x, t, s);
    NotifyRecords(x, t, s);
    forall u | u in x'.thr ensures ThreadOk(x', x'.thr[u]) { NotifyThread(x, t, s, u); }
  }

  lemma NotifyThread(x: State, t: Tid, s: Sid, u: Tid)
    requires Threads(x) && t in x.thr && x.thr[t] == Notify(s) && u in x.thr
    ensures var x' := At(x.(thr := WakeAll(x.thr, s)), t, Ret(0)); u in x'.thr && ThreadOk(x', x'.thr[u])
  {
    assert ThreadOk(x, x.thr[u]);
  }

  lemma StorePreserves(x: State, mem: map<U64, U64>, wr: set<U64>)
    requires Inv(x)
    ensures Inv(x.(mem := mem, wr := wr))
  {
    var x' := x.(mem := mem, wr := wr);
    forall u | u in x'.thr ensures ThreadOk(x', x'.thr[u]) { assert ThreadOk(x, x.thr[u]); }
    forall z | z in x'.rec ensures RecOk(x', z, x'.rec[z]) { assert RecOk(x, z, x.rec[z]); }
  }

  lemma ActPreserves(x: State, a: Action, x': State)
    requires Inv(x) && Act(x, a, x')
    ensures Inv(x')
  {
    match a
    case GuestStore(mem, wr) => StorePreserves(x, mem, wr);
    case Call(t, slot, req) => MoveKeepsInv(x, t, Entry(x, slot, req));
    case Run(t, id, h, expire) =>
      assert ThreadOk(x, x.thr[t]);
      match x.thr[t] {
        case Table(slot, req) => TablePreserves(x, t, slot, req, id, h);
        case Record(slot, g, s, req) =>
          if req.Wait? { WaitPreserves(x, t, slot, g, s, req.timed); } else { DestroyPreserves(x, a, slot, g, s); }
        case Loose(slot, s, req) => LoosePreserves(x, t, slot, s, req);
        case Asleep(s, timed) => MoveKeepsInv(x, t, Woken(s, timed, timed && expire));
        case Woken(s, timed, expired) => WokenPreserves(x, t, s, timed, expired);
        case Notify(s) => NotifyPreserves(x, t, s);
      }
  }

  lemma {:induction false} RunsKeepInv(run: seq<State>, acts: seq<Action>, i: nat)
    requires IsRun(run, acts) && i < |run|
    ensures Inv(run[i])
  {
    if i > 0 {
      RunsKeepInv(run, acts, i - 1);
      ActPreserves(run[i - 1], acts[i - 1], run[i]);
    }
  }

  lemma ReachableInv(x: State)
    requires Reachable(x)
    ensures Inv(x)
  {
    var run, acts :| IsRun(run, acts) && run[|acts|] == x;
    RunsKeepInv(run, acts, |acts|);
  }

  // ---- What holds in every run ------------------------------------------

  /** The value is the initial value plus successful posts minus successful waits, and stays in range. */
  lemma TokensConserved(x: State, s: Sid)
    requires Reachable(x) && s in x.rec
    ensures x.rec[s].value == Tokens(x.log, s) && 0 <= Tokens(x.log, s) <= VALUE_MAX
  {
    ReachableInv(x);
    assert RecOk(x, s, x.rec[s]);
  }

  /** While tokens are available and a thread sleeps, a notify_all is still pending. */
  lemma NoWakeupLost(x: State, v: Tid, s: Sid, timed: bool)
    requires Reachable(x) && v in x.thr && x.thr[v] == Asleep(s, timed)
    ensures s in x.rec && (x.rec[s].value == 0 || exists u :: u in x.thr && x.thr[u] == Notify(s))
  {
    ReachableInv(x);
    assert ThreadOk(x, x.thr[v]);
  }

  // ---- Published waiters and the table ----------------------------------

  ghost predicate NoneDangling(x: State) {
    forall v :: v in x.thr && (x.thr[v].Asleep? || x.thr[v].Woken?) ==> x.thr[v].s in x.tab.Values
  }

  /** The same on the records: one with waiters is in the table under its handle. */
  ghost predicate Published(x: State) {
    forall s {:trigger x.rec[s]} :: s in x.rec && x.rec[s].waiters > 0 ==> Live(x, s)
  }

  lemma PublishedIsNoneDangling(x: State)
    requires Inv(x)
    ensures Published(x) <==> NoneDangling(x)
  {
    if Published(x) {
      forall v | v in x.thr && (x.thr[v].Asleep? || x.thr[v].Woken?) ensures x.thr[v].s in x.tab.Values {
        var s := x.thr[v].s;
        assert ThreadOk(x, x.thr[v]) && RecOk(x, s, x.rec[s]);
        assert v in Waiters(x.thr, s);
        assert Live(x, s);
      }
    }
    if NoneDangling(x) {
      forall s | s in x.rec && x.rec[s].waiters > 0 ensures Live(x, s) {
        assert RecOk(x, s, x.rec[s]) && Waiters(x.thr, s) != {};
        var v :| v in Waiters(x.thr, s);
        assert x.thr[v].s in x.tab.Values;
      }
    }
  }

  /** A step that leaves the table's entries alone, and only publishes a waiter whose semaphore is in the table. */
  lemma StaysPublished(x: State, x': State)
    requires Published(x) && forall h :: h in x.tab ==> h in x'.tab && x'.tab[h] == x.tab[h]
    requires forall s :: s in x'.rec && x'.rec[s].waiters > 0 ==>
               s in x.rec && x'.rec[s].handle == x.rec[s].handle && (x.rec[s].waiters > 0 || Live(x, s))
    ensures Published(x')
  {
  }

  lemma TablePublishes(x: State, a: Action, x': State)
    requires Inv(x) && Published(x) && Act(x, a, x') && a.Run? && x.thr[a.t].Table?
    ensures Published(x')
  {
    StaysPublished(x, x');
  }

  lemma WaitPublishes(x: State, a: Action, x': State)
    requires Inv(x) && Published(x) && Act(x, a, x') && a.Run? && x.thr[a.t].Record? && x.thr[a.t].req.Wait?
    ensures Published(x')
  {
    var s := x.thr[a.t].s;
    assert ThreadOk(x, x.thr[a.t]);
    assert Live(x, s);
    StaysPublished(x, x');
  }

  lemma DestroyPublishes(x: State, a: Action, x': State)
    requires Inv(x) && Published(x) && Act(x, a, x') && a.Run? && x.thr[a.t].Record? && x.thr[a.t].req.Destroy?
    requires !Rebound(x, a)
    ensures Published(x')
  {
    forall s | s in x'.rec && x'.rec[s].waiters > 0 ensures Live(x', s) { assert x'.rec[s] == x.rec[s] && Live(x, s); }
  }

  lemma OtherPublishes(x: State, a: Action, x': State)
    requires Inv(x) && Published(x) && Act(x, a, x') && (a.Run? ==> !x.thr[a.t].Table? && !x.thr[a.t].Record?)
    ensures Published(x')
  {
    if a.Run? {
      match x.thr[a.t]
      case Loose(slot, s, req) => LooseEnlists(x, a.t, slot, s, req);
      case Woken(s, timed, expired) => WokenEnlists(x, a.t, s, timed, expired);
      case _ =>
    }
    assert EnlistsNone(x, x');
    StaysPublished(x, x');
  }

  /** The table stays, and no record gains a waiter. */
  ghost predicate EnlistsNone(x: State, x': State) {
    && x'.tab == x.tab
    && forall s :: s in x'.rec ==>
         s in x.rec && x'.rec[s].handle == x.rec[s].handle && x'.rec[s].waiters <= x.rec[s].waiters
  }

  lemma LooseEnlists(x: State, t: Tid, slot: U64, s: Sid, req: Req)
    requires s in x.rec
    ensures EnlistsNone(x, LooseStep(x, t, slot, s, req))
  {
  }

  lemma WokenEnlists(x: State, t: Tid, s: Sid, timed: bool, expired: bool)
    requires s in x.rec && x.rec[s].waiters > 0
    ensures EnlistsNone(x, WokenStep(x, t, s, timed, expired))
  {
  }

  lemma ActPublishes(x: State, a: Action, x': State)
    requires Inv(x) && Published(x) && Act(x, a, x') && !Rebound(x, a)
    ensures Published(x')
  {
    if a.Run? && x.thr[a.t].Table? {
      TablePublishes(x, a, x');
    } else if a.Run? && x.thr[a.t].Record? {
      assert ThreadOk(x, x.thr[a.t]);
      if x.thr[a.t].req.Wait? { WaitPublishes(x, a, x'); } else { DestroyPublishes(x, a, x'); }
    } else {
      OtherPublishes(x, a, x');
    }
  }

  lemma ReboundDangles(x: State, a: Action, x': State)
    requires Inv(x) && Act(x, a, x') && Rebound(x, a)
    ensures !NoneDangling(x')
  {
    var s := x.tab[x.mem[x.thr[a.t].slot]];
    assert RecOk(x, s, x.rec[s]);
    assert Waiters(x.thr, s) != {};
    var v :| v in Waiters(x.thr, s);
    assert x'.thr[v] == x.thr[v] && s !in x'.tab.Values;
  }

  /**
   sem_destroy reads its slot twice. Where no waiter dangles yet, the step leaves a published
   waiter without its table entry exactly when the second read names a semaphore with waiters.
   */
  lemma DestroyDanglesIffRebound(x: State, a: Action, x': State)
    requires Reachable(x) && NoneDangling(x) && Act(x, a, x') && a.Run? && x.thr[a.t].Record? && x.thr[a.t].req.Destroy?
    ensures !NoneDangling(x') <==> Rebound(x, a)
  {
    ReachableInv(x);
    ActPreserves(x, a, x');
    PublishedIsNoneDangling(x);
    PublishedIsNoneDangling(x');
    if Rebound(x, a) { ReboundDangles(x, a, x'); } else { ActPublishes(x, a, x'); }
  }

  lemma {:induction false} UnreboundPublished(run: seq<State>, acts: seq<Action>, i: nat)
    requires IsRun(run, acts) && i < |run| && forall j :: 0 <= j < |acts| ==> !Rebound(run[j], acts[j])
    ensures Published(run[i])
  {
    if i > 0 {
      UnreboundPublished(run, acts, i - 1);
      RunsKeepInv(run, acts, i - 1);
      ActPublishes(run[i - 1], acts[i - 1], run[i]);
    }
  }

  /** Over a whole run no published waiter ever loses its table entry, if and only if no destroy is rebound. */
  lemma WaitersNeverDangle(run: seq<State>, acts: seq<Action>)
    requires IsRun(run, acts)
    ensures (forall i :: 0 <= i < |run| ==> NoneDangling(run[i]))
            <==> (forall i :: 0 <= i < |acts| ==> !Rebound(run[i], acts[i]))
  {
    if forall i :: 0 <= i < |acts| ==> !Rebound(run[i], acts[i]) {
      forall i | 0 <= i < |run| ensures NoneDangling(run[i]) {
        UnreboundPublished(run, acts, i);
        RunsKeepInv(run, acts, i);
        PublishedIsNoneDangling(run[i]);
      }
    } else {
      var i :| 0 <= i < |acts| && Rebound(run[i], acts[i]);
      RunsKeepInv(run, acts, i);
      ReboundDangles(run[i], acts[i], run[i + 1]);
    }
  }

  /** A destroy that finds in its slot the handle it found before. */
  ghost predicate Steady(x: State, a: Action) {
    a.Run? && a.t in x.thr && x.thr[a.t].Record? && x.thr[a.t].req.Destroy? && x.thr[a.t].slot in x.mem ==>
      x.mem[x.thr[a.t].slot] == x.thr[a.t].h
  }

  /** So a guest that leaves the slot of a running sem_destroy alone never sees a waiter dangle. */
  lemma SteadySlotsSafe(run: seq<State>, acts: seq<Action>, i: nat)
    requires IsRun(run, acts) && i < |run| && forall j :: 0 <= j < |acts| ==> Steady(run[j], acts[j])
    ensures NoneDangling(run[i])
  {
    forall j | 0 <= j < |acts| ensures !Rebound(run[j], acts[j]) {
      RunsKeepInv(run, acts, j);
      if acts[j].Run? && acts[j].t in run[j].thr { assert ThreadOk(run[j], run[j].thr[acts[j].t]); }
    }
    WaitersNeverDangle(run, acts);
  }

  lemma Extend(x: State, a: Action, x': State)
    requires Reachable(x) && Act(x, a, x')
    ensures Reachable(x')
  {
    var run, acts :| IsRun(run, acts) && run[|acts|] == x;
    var run', acts' := run + [x'], acts + [a];
    forall i | 0 <= i < |acts'| ensures Act(run'[i], acts'[i], run'[i + 1]) {
      if i < |acts| { assert Act(run[i], acts[i], run[i + 1]); }
    }
    assert IsRun(run', acts') && run'[|acts'|] == x';
  }

  /** sem_init by an idle thread succeeds with the chosen handle. */
  lemma Creates(x: State, t: Tid, slot: U64, id: Sid, h: U64) returns (x': State)
    requires Reachable(x) && t in x.thr && x.thr[t] == Ret(0) && slot != 0 && slot in x.wr
    requires id !in x.rec && h != 0 && h !in x.tab && TableFree(x, t)
    ensures Reachable(x') && x'.thr == x.thr && x'.wr == x.wr
    ensures x'.rec == x.rec[id := Rec(0, 0, h)] && x'.tab == x.tab[h := id] && x'.mem == x.mem[slot := h]
  {
    var mid := At(x, t, Table(slot, Init(0)));
    Extend(x, Call(t, slot, Init(0)), mid);
    x' := TableStep(mid, t, slot, Init(0), id, h);
    Extend(mid, Run(t, id, h, false), x');
  }

  /** A call that resolves its slot stops at the record with the table lock held. */
  lemma Resolves(x: State, t: Tid, slot: U64, req: Req, id: Sid, h: U64) returns (x': State)
    requires Reachable(x) && t in x.thr && x.thr[t] == Ret(0) && Lookup(x, slot).Some? && slot in x.wr
             && TableFree(x, t)
    requires (req.Wait? || req.Destroy?) && id !in x.rec && h != 0 && h !in x.tab
    ensures Reachable(x') && x' == At(x, t, Record(slot, x.mem[slot], Lookup(x, slot).value, req))
  {
    var mid := At(x, t, Table(slot, req));
    Extend(x, Call(t, slot, req), mid);
    x' := TableStep(mid, t, slot, req, id, h);
    Extend(mid, Run(t, id, h, false), x');
  }

  lemma InitiallyReachable(x: State)
    requires Initial(x)
    ensures Reachable(x)
  {
    var none: seq<Action> := [];
    assert IsRun([x], none) && [x][|none|] == x;
  }

  lemma TwoSemaphores() returns (x: State)
    ensures Reachable(x) && x.thr == map[0 := Ret(0), 1 := Ret(0)] && x.wr == {8, 24}
    ensures x.rec == map[0 := Rec(0, 0, 16), 1 := Rec(0, 0, 32)] && x.tab == map[16 := 0, 32 := 1]
            && x.mem == map[8 := 16, 24 := 32]
  {
    var x0 := State(map[0 := Ret(0), 1 := Ret(0)], map[], map[], map[8 := 0, 24 := 0], {8, 24}, []);
    InitiallyReachable(x0);
    var x1 := Creates(x0, 0, 8, 0, 16);
    x := Creates(x1, 0, 24, 1, 32);
  }

  lemma OneSleeper() returns (x: State)
    ensures Reachable(x) && x.thr == map[0 := Ret(0), 1 := Asleep(1, false)] && x.wr == {8, 24}
    ensures x.rec == map[0 := Rec(0, 0, 16), 1 := Rec(0, 1, 32)] && x.tab == map[16 := 0, 32 := 1]
            && x.mem == map[8 := 16, 24 := 32]
  {
    var x0 := TwoSemaphores();
    var x1 := Resolves(x0, 1, 24, Wait(false), 2, 48);
    x := WaitStep(x1, 1, 1, false);
    Extend(x1, Run(1, 2, 48, false), x);
  }

  lemma RewrittenSlot() returns (x: State)
    ensures Reachable(x) && x.thr == map[0 := Record(8, 16, 0, Destroy), 1 := Asleep(1, false)] && x.wr == {8, 24}
    ensures x.rec == map[0 := Rec(0, 0, 16), 1 := Rec(0, 1, 32)] && x.tab == map[16 := 0, 32 := 1]
            && x.mem == map[8 := 32, 24 := 32]
  {
    var x0 := OneSleeper();
    var x1 := Resolves(x0, 0, 8, Destroy, 2, 48);
    x := x1.(mem := map[8 := 32, 24 := 32]);
    Extend(x1, GuestStore(x.mem, x.wr), x);
  }

  /** Such a run exists: thread 1 sleeps on semaphore 1 while thread 0 destroys semaphore 0 and the guest rewrites its
      slot. */
  lemma ReboundHappens() returns (x: State, a: Action, x': State)
    ensures Reachable(x) && Act(x, a, x') && !NoneDangling(x')
  {
    x := RewrittenSlot();
    a := Run(0, 2, 48, false);
    x' := DestroyStep(x, 0, 8, 0);
    ReachableInv(x);
    ReboundDangles(x, a, x');
  }
}
