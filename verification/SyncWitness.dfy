/** A run in which a condition wait comes back with another mutex, because the guest cleared the slot meanwhile. */
module SyncWitness {
  import opened Base
  import opened Sync
  import opened SyncSteps
  import opened SyncRuns

  const MUTEX: U64 := 8
  const COND: U64 := 24

  function Chooses(call: Call, id: nat, h: U64): Choice { Choice(call, id, h, 0, None, true) }

  const LOCK := Chooses(CallLock(MUTEX), 0, 16)
  const WAIT := Chooses(CallWait(COND, MUTEX, true), 0, 32)
  const AGAIN := Chooses(CallLock(MUTEX), 1, 48)

  /** The wait: one level of mutex 0, in slot 8. */
  const W := Wait(0, 0, MUTEX, 1, 0, false)
  const LATE := Wait(0, 0, MUTEX, 1, 0, true)

  // ---- The states: one thread, at `pc` ----------------------------------

  function Start(pc: Pc): State {
    State(map[0 := pc], map[], map[], map[], map[], map[], map[MUTEX := 0, COND := 0], {MUTEX, COND}, [])
  }

  function Mutex(locked: bool, h: U64): MutexRec {
    MutexRec(locked, if locked then Some(0) else None, if locked then 1 else 0, 0, ErrorCheck, h)
  }

  /** The mutex has been made. */
  function Made(pc: Pc, locked: bool, log: seq<Event>): State {
    State(map[0 := pc], map[0 := Mutex(locked, 16)], map[16 := 0], map[], map[], map[], map[MUTEX := 16, COND := 0],
          {MUTEX, COND}, log)
  }

  const HELD := [Locked(0, 0)]
  const GONE := [Locked(0, 0), Released(0, 0)]

  /** The condition has been made. */
  function Waiting(pc: Pc): State {
    State(map[0 := pc], map[0 := Mutex(true, 16)], map[16 := 0], map[0 := CondRec([], 32)], map[32 := 0], map[],
          map[MUTEX := 16, COND := 32], {MUTEX, COND}, HELD)
  }

  /** The mutex has been released, with token 0 made and perhaps queued, and the slot as it was or cleared. */
  function Away(pc: Pc, queue: seq<Kid>, slot: U64): State {
    State(map[0 := pc], map[0 := Mutex(false, 16)], map[16 := 0], map[0 := CondRec(queue, 32)], map[32 := 0],
          map[0 := Token(false, 0, 0)], map[MUTEX := slot, COND := 32], {MUTEX, COND}, GONE)
  }

  /** The look-up of the cleared slot has made another mutex. */
  function Remade(pc: Pc, locked: bool, log: seq<Event>): State {
    State(map[0 := pc], map[0 := Mutex(false, 16), 1 := Mutex(locked, 48)], map[16 := 0, 48 := 1],
          map[0 := CondRec([], 32)], map[32 := 0], map[0 := Token(false, 0, 0)], map[MUTEX := 48, COND := 32],
          {MUTEX, COND}, log)
  }

  // ---- The steps --------------------------------------------------------

  /** Moving the only thread. */
  lemma Moves(s: State, pc: Pc, pc': Pc)
    requires s.thr == map[0 := pc]
    ensures At(s, 0, pc').thr == map[0 := pc']
  {
  }

  lemma EntersLock()
    ensures Step(Start(Ret(Code(0))), 0, LOCK,
                 Start(MutexTable(MUTEX, ReqLock(Plain))))
  {
    var s := Start(Ret(Code(0)));
    Moves(s, Ret(Code(0)), MutexTable(MUTEX, ReqLock(Plain)));
  }

  lemma MakesMutex()
    ensures Step(Start(MutexTable(MUTEX, ReqLock(Plain))), 0, LOCK,
                 Made(MutexRecord(MUTEX, 16, 0, ReqLock(Plain)), false, []))
  {
    var s := Start(MutexTable(MUTEX, ReqLock(Plain)));
    var e := Made(MutexRecord(MUTEX, 16, 0, ReqLock(Plain)), false, []);
    var s' := MutexTableStep(s, 0, MUTEX, ReqLock(Plain), 0, 16);
    assert s'.mrec == e.mrec && s'.mtab == e.mtab && s'.mem == e.mem && s'.thr == e.thr;
  }

  lemma TakesMutex()
    ensures Step(Made(MutexRecord(MUTEX, 16, 0, ReqLock(Plain)), false, []), 0, LOCK,
                 Made(Ret(Code(0)), true, HELD))
  {
    var s := Made(MutexRecord(MUTEX, 16, 0, ReqLock(Plain)), false, []);
    var e := Made(Ret(Code(0)), true, HELD);
    var s' := LockStep(s, 0, 0, Plain);
    assert s'.mrec == e.mrec && s'.log == e.log && s'.thr == e.thr;
  }

  lemma EntersWait()
    ensures Step(Made(Ret(Code(0)), true, HELD), 0, WAIT,
                 Made(MutexTable(MUTEX, ReqWait(COND, true)), true, HELD))
  {
    var s := Made(Ret(Code(0)), true, HELD);
    Moves(s, Ret(Code(0)), MutexTable(MUTEX, ReqWait(COND, true)));
  }

  lemma FindsMutex()
    ensures Step(Made(MutexTable(MUTEX, ReqWait(COND, true)), true, HELD), 0, AGAIN,
                 Made(CondTable(COND, ReqCondWait(0, MUTEX, true)), true, HELD))
  {
    var s := Made(MutexTable(MUTEX, ReqWait(COND, true)), true, HELD);
    Moves(s, MutexTable(MUTEX, ReqWait(COND, true)), CondTable(COND, ReqCondWait(0, MUTEX, true)));
  }

  lemma MakesCond()
    ensures Step(Made(CondTable(COND, ReqCondWait(0, MUTEX, true)), true, HELD), 0, WAIT,
                 Waiting(CondRecord(COND, 32, 0, ReqCondWait(0, MUTEX, true))))
  {
    var s := Made(CondTable(COND, ReqCondWait(0, MUTEX, true)), true, HELD);
    var e := Waiting(CondRecord(COND, 32, 0, ReqCondWait(0, MUTEX, true)));
    var s' := CondTableStep(s, 0, COND, ReqCondWait(0, MUTEX, true), 0, 32);
    assert s'.crec == e.crec && s'.ctab == e.ctab && s'.mem == e.mem && s'.thr == e.thr;
  }

  lemma ComesToMutex()
    ensures Step(Waiting(CondRecord(COND, 32, 0, ReqCondWait(0, MUTEX, true))), 0, WAIT,
                 Waiting(WaitMutex(0, 0, MUTEX, true)))
  {
    var s := Waiting(CondRecord(COND, 32, 0, ReqCondWait(0, MUTEX, true)));
    Moves(s, CondRecord(COND, 32, 0, ReqCondWait(0, MUTEX, true)), WaitMutex(0, 0, MUTEX, true));
  }

  lemma ReleasesMutex()
    ensures Step(Waiting(WaitMutex(0, 0, MUTEX, true)), 0, WAIT,
                 Away(WaitNotify(W, true), [0], 16))
  {
    var s := Waiting(WaitMutex(0, 0, MUTEX, true));
    var e := Away(WaitNotify(W, true), [0], 16);
    var s' := WaitMutexStep(s, 0, 0, 0, MUTEX, true, 0);
    assert [] + [0] == [0];
    assert s'.crec == e.crec && s'.tok == e.tok && s'.mrec == e.mrec && s'.log == e.log && s'.thr == e.thr;
  }

  lemma NotifiesNone()
    ensures Step(Away(WaitNotify(W, true), [0], 16), 0, WAIT,
                 Away(TokenCheck(W, true), [0], 16))
  {
    var s := Away(WaitNotify(W, true), [0], 16);
    Moves(s, WaitNotify(W, true), TokenCheck(W, true));
  }

  lemma FallsAsleep()
    ensures Step(Away(TokenCheck(W, true), [0], 16), 0, WAIT,
                 Away(TokenAsleep(W, true), [0], 16))
  {
    var s := Away(TokenCheck(W, true), [0], 16);
    Moves(s, TokenCheck(W, true), TokenAsleep(W, true));
  }

  lemma TimesOut()
    ensures Step(Away(TokenAsleep(W, true), [0], 16), 0, WAIT,
                 Away(TokenWoken(W, true, true), [0], 16))
  {
    var s := Away(TokenAsleep(W, true), [0], 16);
    Moves(s, TokenAsleep(W, true), TokenWoken(W, true, true));
  }

  lemma SeesTimeout()
    ensures Step(Away(TokenWoken(W, true, true), [0], 16), 0, WAIT,
                 Away(CondTable(0, ReqExpire(W)), [0], 16))
  {
    var s := Away(TokenWoken(W, true, true), [0], 16);
    Moves(s, TokenWoken(W, true, true), CondTable(0, ReqExpire(W)));
  }

  lemma LocksTable()
    ensures Step(Away(CondTable(0, ReqExpire(W)), [0], 16), 0, AGAIN,
                 Away(CondRecord(0, 0, 0, ReqExpire(W)), [0], 16))
  {
    var s := Away(CondTable(0, ReqExpire(W)), [0], 16);
    Moves(s, CondTable(0, ReqExpire(W)), CondRecord(0, 0, 0, ReqExpire(W)));
  }

  lemma LocksCond()
    ensures Step(Away(CondRecord(0, 0, 0, ReqExpire(W)), [0], 16), 0, WAIT,
                 Away(ExpireToken(W), [0], 16))
  {
    var s := Away(CondRecord(0, 0, 0, ReqExpire(W)), [0], 16);
    Moves(s, CondRecord(0, 0, 0, ReqExpire(W)), ExpireToken(W));
  }

  lemma LeavesQueue()
    ensures Step(Away(ExpireToken(W), [0], 16), 0, WAIT,
                 Away(Rejoin(W, true), [], 16))
  {
    var s := Away(ExpireToken(W), [0], 16);
    var e := Away(Rejoin(W, true), [], 16);
    assert Without([0], 0) == [];
    assert ExpireStep(s, 0, W).crec == e.crec && ExpireStep(s, 0, W).thr == e.thr;
  }

  lemma AnotherMade()
    ensures MutexTableStep(Away(Rejoin(W, true), [], 0), 0, MUTEX, ReqLock(Rewait(LATE)), 1, 48)
            == Remade(MutexRecord(MUTEX, 48, 1, ReqLock(Rewait(LATE))), false, GONE)
  {
    var s, e := Away(Rejoin(W, true), [], 0), Remade(MutexRecord(MUTEX, 48, 1, ReqLock(Rewait(LATE))), false, GONE);
    var s' := MutexTableStep(s, 0, MUTEX, ReqLock(Rewait(LATE)), 1, 48);
    assert s'.mrec == e.mrec && s'.mtab == e.mtab && s'.mem == e.mem && s'.thr == e.thr;
  }

  lemma MakesAnother()
    ensures Step(Away(Rejoin(W, true), [], 0), 0, AGAIN,
                 Remade(MutexRecord(MUTEX, 48, 1, ReqLock(Rewait(LATE))), false, GONE))
  {
    AnotherMade();
  }

  lemma TakesAnother()
    ensures Step(Remade(MutexRecord(MUTEX, 48, 1, ReqLock(Rewait(LATE))), false, GONE), 0, AGAIN,
                 Remade(Ret(WaitDone(LATE, 1, ETIMEDOUT)), true, GONE + [Locked(0, 1)]))
  {
    var s := Remade(MutexRecord(MUTEX, 48, 1, ReqLock(Rewait(LATE))), false, GONE);
    var e := Remade(Ret(WaitDone(LATE, 1, ETIMEDOUT)), true, GONE + [Locked(0, 1)]);
    var s' := LockStep(s, 0, 1, Rewait(LATE));
    assert s'.mrec == e.mrec && s'.log == e.log && s'.thr == e.thr;
  }

  // ---- The run ----------------------------------------------------------

  /** A run of `n` actions that ends in `s`. */
  ghost predicate Reached(run: seq<State>, acts: seq<Action>, n: nat, s: State) {
    IsRun(run, acts) && |acts| == n && run[n] == s
  }

  lemma Grow(run: seq<State>, acts: seq<Action>, n: nat, s: State, a: Action, s': State)
    returns (run': seq<State>, acts': seq<Action>)
    requires Reached(run, acts, n, s) && Act(s, a, s')
    ensures Reached(run', acts', n + 1, s') && run' == run + [s'] && acts' == acts + [a]
  {
    run', acts' := run + [s'], acts + [a];
    forall i | 0 <= i < |acts'| ensures StepAt(run', acts', i) {
      if i < |acts| { assert StepAt(run, acts, i); }
    }
  }

  lemma LocksIt() returns (run: seq<State>, acts: seq<Action>)
    ensures Reached(run, acts, 3, Made(Ret(Code(0)), true, HELD))
  {
    run, acts := [Start(Ret(Code(0)))], [];
    EntersLock();
    run, acts := Grow(run, acts, 0, Start(Ret(Code(0))), Run(0, LOCK),
                      Start(MutexTable(MUTEX, ReqLock(Plain))));
    MakesMutex();
    run, acts := Grow(run, acts, 1, Start(MutexTable(MUTEX, ReqLock(Plain))), Run(0, LOCK),
                      Made(MutexRecord(MUTEX, 16, 0, ReqLock(Plain)), false, []));
    TakesMutex();
    run, acts := Grow(run, acts, 2, Made(MutexRecord(MUTEX, 16, 0, ReqLock(Plain)), false, []), Run(0, LOCK),
                      Made(Ret(Code(0)), true, HELD));
  }

  lemma CallsWait() returns (run: seq<State>, acts: seq<Action>)
    ensures Reached(run, acts, 7, Waiting(WaitMutex(0, 0, MUTEX, true)))
  {
    run, acts := LocksIt();
    EntersWait();
    run, acts := Grow(run, acts, 3, Made(Ret(Code(0)), true, HELD), Run(0, WAIT),
                      Made(MutexTable(MUTEX, ReqWait(COND, true)), true, HELD));
    FindsMutex();
    run, acts := Grow(run, acts, 4, Made(MutexTable(MUTEX, ReqWait(COND, true)), true, HELD), Run(0, AGAIN),
                      Made(CondTable(COND, ReqCondWait(0, MUTEX, true)), true, HELD));
    MakesCond();
    run, acts := Grow(run, acts, 5, Made(CondTable(COND, ReqCondWait(0, MUTEX, true)), true, HELD), Run(0, WAIT),
                      Waiting(CondRecord(COND, 32, 0, ReqCondWait(0, MUTEX, true))));
    ComesToMutex();
    run, acts := Grow(run, acts, 6, Waiting(CondRecord(COND, 32, 0, ReqCondWait(0, MUTEX, true))), Run(0, WAIT),
                      Waiting(WaitMutex(0, 0, MUTEX, true)));
  }

  /** The wait begins at step 7 and has not returned. */
  ghost predicate Begun(run: seq<State>, acts: seq<Action>) {
    && 9 <= |run| && 8 <= |acts| && acts[7] == Run(0, WAIT)
    && run[7] == Waiting(WaitMutex(0, 0, MUTEX, true)) && run[8] == Away(WaitNotify(W, true), [0], 16)
    && forall x :: 8 <= x < |run| ==> Out(run[x])
  }

  predicate Out(s: State) { 0 in s.thr && !s.thr[0].Ret? }

  lemma GoesToSleep() returns (run: seq<State>, acts: seq<Action>)
    ensures Reached(run, acts, 10, Away(TokenAsleep(W, true), [0], 16)) && Begun(run, acts)
  {
    run, acts := CallsWait();
    ReleasesMutex();
    run, acts := Grow(run, acts, 7, Waiting(WaitMutex(0, 0, MUTEX, true)), Run(0, WAIT),
                      Away(WaitNotify(W, true), [0], 16));
    NotifiesNone();
    run, acts := Grow(run, acts, 8, Away(WaitNotify(W, true), [0], 16), Run(0, WAIT),
                      Away(TokenCheck(W, true), [0], 16));
    FallsAsleep();
    run, acts := Grow(run, acts, 9, Away(TokenCheck(W, true), [0], 16), Run(0, WAIT),
                      Away(TokenAsleep(W, true), [0], 16));
  }

  lemma GivesUp() returns (run: seq<State>, acts: seq<Action>)
    ensures Reached(run, acts, 13, Away(CondRecord(0, 0, 0, ReqExpire(W)), [0], 16)) && Begun(run, acts)
  {
    run, acts := GoesToSleep();
    TimesOut();
    run, acts := Grow(run, acts, 10, Away(TokenAsleep(W, true), [0], 16), Run(0, WAIT),
                      Away(TokenWoken(W, true, true), [0], 16));
    SeesTimeout();
    run, acts := Grow(run, acts, 11, Away(TokenWoken(W, true, true), [0], 16), Run(0, WAIT),
                      Away(CondTable(0, ReqExpire(W)), [0], 16));
    LocksTable();
    run, acts := Grow(run, acts, 12, Away(CondTable(0, ReqExpire(W)), [0], 16), Run(0, AGAIN),
                      Away(CondRecord(0, 0, 0, ReqExpire(W)), [0], 16));
  }

  lemma GoesBack() returns (run: seq<State>, acts: seq<Action>)
    ensures Reached(run, acts, 15, Away(Rejoin(W, true), [], 16)) && Begun(run, acts)
  {
    run, acts := GivesUp();
    LocksCond();
    run, acts := Grow(run, acts, 13, Away(CondRecord(0, 0, 0, ReqExpire(W)), [0], 16), Run(0, WAIT),
                      Away(ExpireToken(W), [0], 16));
    LeavesQueue();
    run, acts := Grow(run, acts, 14, Away(ExpireToken(W), [0], 16), Run(0, WAIT),
                      Away(Rejoin(W, true), [], 16));
  }

  lemma FindsAnother() returns (run: seq<State>, acts: seq<Action>)
    ensures Reached(run, acts, 17, Remade(MutexRecord(MUTEX, 48, 1, ReqLock(Rewait(LATE))), false, GONE))
    ensures Begun(run, acts)
  {
    run, acts := GoesBack();
    run, acts := Grow(run, acts, 15, Away(Rejoin(W, true), [], 16),
                      GuestStore(map[MUTEX := 0, COND := 32], {MUTEX, COND}),
                      Away(Rejoin(W, true), [], 0));
    MakesAnother();
    run, acts := Grow(run, acts, 16, Away(Rejoin(W, true), [], 0), Run(0, AGAIN),
                      Remade(MutexRecord(MUTEX, 48, 1, ReqLock(Rewait(LATE))), false, GONE));
  }

  /** What the wait ends with: another mutex, while the one it released is free. */
  ghost predicate EndsElsewhere(s: State) {
    0 in s.thr && s.thr[0] == Ret(WaitDone(LATE, 1, ETIMEDOUT)) && LATE.m == 0 && 0 in s.mrec && s.mrec[0].owner.None?
  }

  /**
   A thread waits with a time-out on mutex 0; after the release the guest clears the mutex slot, and the look-up on the
   way back makes mutex 1. The wait returns ETIMEDOUT with mutex 1, and no longer holds mutex 0.
   */
  lemma ReboundWaitHappens() returns (run: seq<State>, acts: seq<Action>, n: nat)
    ensures IsRun(run, acts) && |acts| == 18 && Begun(run[..18], acts) && EndsElsewhere(run[18])
    ensures 7 < n < 18 && Rejoins(run, acts, n, 0, W) && !Names(run[n], W.slot, W.m)
  {
    run, acts := FindsAnother();
    ghost var before := run;
    TakesAnother();
    run, acts := Grow(run, acts, 17, Remade(MutexRecord(MUTEX, 48, 1, ReqLock(Rewait(LATE))), false, GONE),
                      Run(0, AGAIN),
                      Remade(Ret(WaitDone(LATE, 1, ETIMEDOUT)), true, GONE + [Locked(0, 1)]));
    assert run[..18] == before;
    forall x | 7 < x < 18 ensures 0 in run[x].thr && !run[x].thr[0].Ret? { assert Out(before[x]); }
    n := WaitRestoresMutex(run, acts, 0, W, true, 7, 18);
  }
}
