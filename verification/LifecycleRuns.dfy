/** What holds of every run of initialise and finalise calls, and when exactly a module is initialised twice. */
module LifecycleRuns {
  import opened Base
  import opened ModuleOrder
  import opened Lifecycle

  // ---- Finalisation, over every run -------------------------------------

  /** Finalisation ran completed modules, each once, backwards from the last that had completed by then. */
  ghost predicate Unwound(log: seq<Event>) {
    exists k: nat :: k <= |InitDones(log)| && UnwoundFrom(log, k)
  }

  ghost predicate UnwoundFrom(log: seq<Event>, k: nat)
    requires k <= |InitDones(log)|
  {
    NoDup(InitDones(log)[..k]) && FiniStarts(log) <= Backwards(InitDones(log)[..k])
  }

  /** Initialisation adds to what has started and completed, and leaves finalisation alone. */
  ghost predicate Extends(l: Life, l': Life) {
    && InitStarts(l.log) <= InitStarts(l'.log) && InitDones(l.log) <= InitDones(l'.log)
    && FiniStarts(l'.log) == FiniStarts(l.log) && l'.finalized == l.finalized && l'.finiFailed == l.finiFailed
    && (l.preinit ==> l'.preinit)
  }

  lemma {:induction false} InitFromExtends(l: Life, order: seq<nat>, faults: Faults)
    ensures Extends(l, InitFrom(l, order, faults))
    decreases |order|
  {
    if order != [] {
      var m := order[0];
      LogStarts(l.log, m);
      if m in l.done {
        InitFromExtends(l, order[1..], faults);
      } else if !faults(m) {
        InitFromExtends(l.(done := l.done + [m], log := l.log + [InitStarted(m)] + [InitDone(m)]), order[1..], faults);
      }
    }
  }

  lemma InitCallExtends(l: Life, c: Call)
    requires c.Initialize?
    ensures Extends(l, Step(l, c))
  {
    PreinitLogs(l.log);
    if c.order.Some? {
      InitFromExtends(l, c.order.value, c.faults);
      InitFromExtends(l.(preinit := true, log := l.log + [PreinitStarted] + [PreinitDone]), c.order.value, c.faults);
    }
  }

  lemma ExtendsUnwound(l: Life, l': Life)
    requires Extends(l, l') && Unwound(l.log)
    ensures Unwound(l'.log)
  {
    var k: nat :| k <= |InitDones(l.log)| && UnwoundFrom(l.log, k);
    assert InitDones(l'.log)[..k] == InitDones(l.log)[..k];
    assert UnwoundFrom(l'.log, k);
  }

  ghost predicate Over(l: Life) { (l.finalized || l.finiFailed) && Unwound(l.log) }

  lemma ClosedIsOver(l: Life)
    requires Closed(l)
    ensures Over(l)
  {
    var dones := InitDones(l.log);
    assert dones[..|dones|] == dones;
    assert UnwoundFrom(l.log, |dones|);
  }

  lemma BuildingUnwound(l: Life)
    requires Building(l)
    ensures Unwound(l.log)
  {
    assert UnwoundFrom(l.log, 0);
  }

  lemma {:induction false} RunsUnwind(calls: seq<Call>)
    ensures Building(Run(calls)) || Over(Run(calls))
    decreases |calls|
  {
    if calls != [] {
      var last := |calls| - 1;
      var l, c := Run(calls[..last]), calls[last];
      RunsUnwind(calls[..last]);
      if Building(l) {
        if c.Initialize? {
          InitCallKeeps(l, c);
        } else {
          FiniCallKeeps(l, c);
          if !Building(Step(l, c)) { ClosedIsOver(Step(l, c)); }
        }
      } else if c.Initialize? {
        InitCallExtends(l, c);
        ExtendsUnwound(l, Step(l, c));
      }
    }
  }

  lemma {:induction false} BackwardsSame(s: seq<nat>, m: nat)
    ensures m in Backwards(s) <==> m in s
    decreases |s|
  {
    if s != [] {
      BackwardsSame(s[..|s| - 1], m);
      assert s == s[..|s| - 1] + [s[|s| - 1]];
    }
  }

  lemma {:induction false} BackwardsNoDup(s: seq<nat>)
    requires NoDup(s)
    ensures NoDup(Backwards(s))
    decreases |s|
  {
    if s != [] {
      var last := |s| - 1;
      BackwardsNoDup(s[..last]);
      BackwardsSame(s[..last], s[last]);
    }
  }

  /** Over every run, with faults anywhere and calls in any order, each module's finalisation starts at most once,
      only after its initialisation completed, and in reverse order of completion. */
  lemma FinalisedOnce(calls: seq<Call>)
    ensures var log := Run(calls).log;
            Unwound(log) && NoDup(FiniStarts(log)) && forall m :: m in FiniStarts(log) ==> m in InitDones(log)
  {
    RunsUnwind(calls);
    var log := Run(calls).log;
    if Building(Run(calls)) { BuildingUnwound(Run(calls)); }
    var k: nat :| k <= |InitDones(log)| && UnwoundFrom(log, k);
    var dones := InitDones(log)[..k];
    BackwardsNoDup(dones);
    forall m | m in FiniStarts(log) ensures m in InitDones(log) { BackwardsSame(dones, m); }
  }

  // ---- Initialisation ---------------------------------------------------

  /** The call gets as far as the modules although a finalisation has failed. */
  predicate ProceedsAfterFailure(l: Life, c: Call) {
    c.Initialize? && l.finiFailed && !l.finalized && !l.initFailed && c.order.Some? && c.resources
  }

  /** Such a call finds nothing left to do. */
  ghost predicate NothingLeft(l: Life, c: Call) {
    ProceedsAfterFailure(l, c) ==> forall m :: m in c.order.value ==> m in l.done
  }

  ghost predicate Harmless(calls: seq<Call>) {
    forall i :: 0 <= i < |calls| ==> NothingLeft(Run(calls[..i]), calls[i])
  }

  lemma {:induction false} AllDone(l: Life, order: seq<nat>, faults: Faults)
    requires forall m :: m in order ==> m in l.done
    ensures InitFrom(l, order, faults) == l
    decreases |order|
  {
    if order != [] { AllDone(l, order[1..], faults); }
  }

  /** Pre-initialisation logs nothing that the properties look at. */
  lemma PreinitLogs(log: seq<Event>)
    ensures var started := log + [PreinitStarted]; var completed := started + [PreinitDone];
            && InitStarts(started) == InitStarts(completed) == InitStarts(log)
            && InitDones(started) == InitDones(completed) == InitDones(log)
            && FiniStarts(started) == FiniStarts(completed) == FiniStarts(log)
  {
    LogMore(log, PreinitStarted);
    LogMore(log + [PreinitStarted], PreinitDone);
  }

  lemma HarmlessKeeps(l: Life, c: Call)
    requires Closed(l) && NothingLeft(l, c)
    ensures Closed(Step(l, c))
  {
    if ProceedsAfterFailure(l, c) {
      PreinitLogs(l.log);
      AllDone(l, c.order.value, c.faults);
      AllDone(l.(preinit := true, log := l.log + [PreinitStarted] + [PreinitDone]), c.order.value, c.faults);
    }
  }

  lemma HarmlessPrefix(calls: seq<Call>, n: nat)
    requires Harmless(calls) && n <= |calls|
    ensures Harmless(calls[..n])
  {
    forall i | 0 <= i < n ensures NothingLeft(Run(calls[..n][..i]), calls[..n][i]) {
      assert calls[..n][..i] == calls[..i];
    }
  }

  /** Over every harmless run, with faults anywhere and whatever the orders, no initialisation starts twice, and
      finalisation runs the completed modules in reverse order of completion. */
  lemma {:induction false} LifecycleSafe(calls: seq<Call>)
    requires Harmless(calls)
    ensures Inv(Run(calls)) && Safe(Run(calls).log)
    decreases |calls|
  {
    if calls != [] {
      var last := |calls| - 1;
      var l, c := Run(calls[..last]), calls[last];
      HarmlessPrefix(calls, last);
      LifecycleSafe(calls[..last]);
      if Building(l) {
        if c.Initialize? { InitCallKeeps(l, c); } else { FiniCallKeeps(l, c); }
      } else {
        HarmlessKeeps(l, c);
      }
    }
  }

  // ---- The exact condition, for one program -----------------------------

  /** A program's order does not change between calls. */
  ghost predicate OneOrder(calls: seq<Call>, o: seq<nat>) {
    forall i :: 0 <= i < |calls| && calls[i].Initialize? && calls[i].order.Some? ==> calls[i].order.value == o
  }

  /** While nothing has failed in initialisation: nothing is up, or everything is; after a failed finalisation the
      modules still up are the first of the order, and all of them have been started. */
  ghost predicate Staged(l: Life, o: seq<nat>) {
    !l.initFailed && !l.finalized ==>
      if l.finiFailed then l.done <= o && InitStarts(l.log) == o && l.preinit
      else InitStarts(l.log) == l.done && (l.done == [] || (l.done == o && l.preinit))
  }

  lemma {:induction false} InitAll(l: Life, o: seq<nat>, k: nat, faults: Faults)
    requires NoDup(o) && k <= |o| && l.done == o[..k] && InitStarts(l.log) == o[..k] && !l.initFailed
    ensures var l' := InitFrom(l, o[k..], faults);
            !l'.initFailed ==> l'.done == o && InitStarts(l'.log) == o && l'.preinit == l.preinit
    decreases |o| - k
  {
    if k < |o| {
      var m := o[k];
      LogStarts(l.log, m);
      assert o[k..][0] == m && o[k..][1..] == o[k + 1..] && m !in o[..k] && o[..k] + [m] == o[..k + 1];
      if !faults(m) {
        InitAll(l.(done := l.done + [m], log := l.log + [InitStarted(m)] + [InitDone(m)]), o, k + 1, faults);
      }
    } else {
      assert o[..k] == o && o[k..] == [];
    }
  }

  lemma InitCallStages(l: Life, c: Call, o: seq<nat>)
    requires c.Initialize? && NoDup(o) && Staged(l, o) && !l.finiFailed && (c.order.Some? ==> c.order.value == o)
    ensures Staged(Step(l, c), o)
  {
    InitCallExtends(l, c);
    if !(l.finalized || l.initFailed || c.order.None? || !c.resources) {
      PreinitLogs(l.log);
      var l1 := if l.preinit then l else l.(preinit := true, log := l.log + [PreinitStarted] + [PreinitDone]);
      assert o[0..] == o;
      if l.done == [] { InitAll(l1, o, 0, c.faults); } else { AllDone(l1, o, c.faults); }
    }
  }

  lemma {:induction false} FiniFromStages(l: Life, o: seq<nat>, faults: Faults)
    requires l.done <= o && InitStarts(l.log) == o && !l.finalized && l.preinit
    ensures var l' := FiniFrom(l, faults);
            l'.finalized || (l'.finiFailed && l'.done <= o && InitStarts(l'.log) == o && l'.preinit)
    decreases |l.done|
  {
    if l.done != [] {
      var last := |l.done| - 1;
      var m := l.done[last];
      LogUnwinds(l.log, m);
      if !faults(m) {
        FiniFromStages(l.(done := l.done[..last], log := l.log + [FiniStarted(m)] + [FiniDone(m)]), o, faults);
      }
    }
  }

  lemma FiniCallStages(l: Life, c: Call, o: seq<nat>)
    requires c.Finalize? && Staged(l, o)
    ensures Staged(Step(l, c), o)
  {
    if !l.finalized && !l.finiFailed && l.done != [] && c.resources {
      if l.initFailed {
        FiniKeepsFailure(l, c.faults);
      } else {
        FiniFromStages(l, o, c.faults);
      }
    }
  }

  lemma {:induction false} FiniKeepsFailure(l: Life, faults: Faults)
    ensures FiniFrom(l, faults).initFailed == l.initFailed
    decreases |l.done|
  {
    if l.done != [] {
      var last := |l.done| - 1;
      var m := l.done[last];
      if !faults(m) {
        FiniKeepsFailure(l.(done := l.done[..last], log := l.log + [FiniStarted(m)] + [FiniDone(m)]), faults);
      }
    }
  }

  lemma {:induction false} HarmlessStages(calls: seq<Call>, o: seq<nat>)
    requires NoDup(o) && OneOrder(calls, o) && Harmless(calls)
    ensures Staged(Run(calls), o)
    decreases |calls|
  {
    if calls != [] {
      var last := |calls| - 1;
      var l, c := Run(calls[..last]), calls[last];
      HarmlessPrefix(calls, last);
      HarmlessStages(calls[..last], o);
      if c.Finalize? {
        FiniCallStages(l, c, o);
      } else if !l.finiFailed {
        InitCallStages(l, c, o);
      } else if ProceedsAfterFailure(l, c) {
        PreinitLogs(l.log);
        AllDone(l, o, c.faults);
        AllDone(l.(preinit := true, log := l.log + [PreinitStarted] + [PreinitDone]), o, c.faults);
      }
    }
  }

  /** Finding a module that has been started before but is not up starts it again. */
  lemma {:induction false} StartsAgain(l: Life, order: seq<nat>, m: nat, faults: Faults)
    requires m in order && m !in l.done && forall i :: 0 <= i < |order| ==> order[i] in InitStarts(l.log)
    ensures !NoDup(InitStarts(InitFrom(l, order, faults).log))
    decreases |order|
  {
    var x := order[0];
    if x in l.done {
      StartsAgain(l, order[1..], m, faults);
    } else {
      LogStarts(l.log, x);
      var starts := InitStarts(l.log);
      var i :| 0 <= i < |starts| && starts[i] == x;
      assert (starts + [x])[i] == (starts + [x])[|starts|];
      if !faults(x) {
        InitFromExtends(l.(done := l.done + [x], log := l.log + [InitStarted(x)] + [InitDone(x)]), order[1..], faults);
        PrefixDup(starts + [x], InitStarts(InitFrom(l, order, faults).log));
      }
    }
  }

  lemma PrefixDup(a: seq<nat>, b: seq<nat>)
    requires a <= b && !NoDup(a)
    ensures !NoDup(b)
  {
    var i, j :| 0 <= i < j < |a| && a[i] == a[j];
    assert b[i] == a[i] && b[j] == a[j];
  }

  lemma {:induction false} FiniFromStarts(l: Life, faults: Faults)
    ensures InitStarts(FiniFrom(l, faults).log) == InitStarts(l.log)
    decreases |l.done|
  {
    if l.done != [] {
      var last := |l.done| - 1;
      var m := l.done[last];
      LogUnwinds(l.log, m);
      if !faults(m) {
        FiniFromStarts(l.(done := l.done[..last], log := l.log + [FiniStarted(m)] + [FiniDone(m)]), faults);
      }
    }
  }

  /** What has started stays started. */
  lemma {:induction false} StartsStay(calls: seq<Call>, n: nat)
    requires n <= |calls|
    ensures InitStarts(Run(calls[..n]).log) <= InitStarts(Run(calls).log)
    decreases |calls|
  {
    if n == |calls| {
      assert calls[..n] == calls;
    } else {
      var last := |calls| - 1;
      var l, c := Run(calls[..last]), calls[last];
      assert calls[..last][..n] == calls[..n];
      StartsStay(calls[..last], n);
      if c.Initialize? { InitCallExtends(l, c); } else { FiniFromStarts(l, c.faults); }
    }
  }

  lemma HarmfulStartsAgain(l: Life, c: Call, o: seq<nat>)
    requires Staged(l, o) && !NothingLeft(l, c) && c.order == Some(o)
    ensures !NoDup(InitStarts(Step(l, c).log))
  {
    var m :| m in o && m !in l.done;
    StartsAgain(l, o, m, c.faults);
  }

  lemma {:induction false} FirstHarm(calls: seq<Call>, n: nat) returns (i: nat)
    requires n <= |calls| && exists j :: 0 <= j < n && !NothingLeft(Run(calls[..j]), calls[j])
    ensures i < n && !NothingLeft(Run(calls[..i]), calls[i]) && Harmless(calls[..i])
  {
    if j :| 0 <= j < n - 1 && !NothingLeft(Run(calls[..j]), calls[j]) {
      i := FirstHarm(calls, n - 1);
    } else {
      i := n - 1;
      forall j | 0 <= j < i ensures NothingLeft(Run(calls[..i][..j]), calls[..i][j]) {
        assert calls[..i][..j] == calls[..j];
      }
    }
  }

  /** For one program: no module is ever initialised twice if and only if every initialise call that gets as far as
      the modules after a failed finalisation finds all of them still up. */
  lemma LifecycleExact(calls: seq<Call>, o: seq<nat>)
    requires NoDup(o) && OneOrder(calls, o)
    ensures NoDup(InitStarts(Run(calls).log)) <==> Harmless(calls)
  {
    if Harmless(calls) {
      LifecycleSafe(calls);
    } else {
      var i := FirstHarm(calls, |calls|);
      HarmlessStages(calls[..i], o);
      HarmfulStartsAgain(Run(calls[..i]), calls[i], o);
      var upTo := calls[..i + 1];
      assert upTo[..i] == calls[..i] && upTo[i] == calls[i];
      StartsStay(calls, i + 1);
      PrefixDup(InitStarts(Run(upTo).log), InitStarts(Run(calls).log));
    }
  }

  // ---- A program that is initialised twice ------------------------------

  lemma InitOne(l: Life, m: nat, rest: seq<nat>, faults: Faults)
    requires m !in l.done && !faults(m)
    ensures InitFrom(l, [m] + rest, faults)
            == InitFrom(l.(done := l.done + [m], log := l.log + [InitStarted(m)] + [InitDone(m)]), rest, faults)
  {
    assert ([m] + rest)[1..] == rest;
  }

  lemma SkipOne(l: Life, m: nat, rest: seq<nat>, faults: Faults)
    requires m in l.done
    ensures InitFrom(l, [m] + rest, faults) == InitFrom(l, rest, faults)
  {
    assert ([m] + rest)[1..] == rest;
  }

  /** Two modules come up. */
  lemma BothUp(l: Life, a: nat, b: nat, faults: Faults)
    requires l.done == [] && a != b && !faults(a) && !faults(b)
    ensures InitFrom(l, [a] + ([b] + []), faults)
            == l.(done := [a, b], log := l.log + [InitStarted(a)] + [InitDone(a)] + [InitStarted(b)] + [InitDone(b)])
  {
    InitOne(l, a, [b] + [], faults);
    var l1 := l.(done := l.done + [a], log := l.log + [InitStarted(a)] + [InitDone(a)]);
    InitOne(l1, b, [], faults);
    assert l.done + [a] + [b] == [a, b];
  }

  /** The second goes down and the first faults on its way down. */
  lemma HalfDown(l: Life, a: nat, b: nat, faults: Faults)
    requires l.done == [a, b] && faults(a) && !faults(b)
    ensures FiniFrom(l, faults)
            == l.(done := [a], finiFailed := true, log := l.log + [FiniStarted(b)] + [FiniDone(b)] + [FiniStarted(a)])
  {
    assert l.done[..1] == [a];
    var l1 := l.(done := [a], log := l.log + [FiniStarted(b)] + [FiniDone(b)]);
    assert FiniFrom(l, faults) == FiniFrom(l1, faults);
  }

  /** The first is skipped and the second comes up again. */
  lemma SecondUpAgain(l: Life, a: nat, b: nat, faults: Faults)
    requires l.done == [a] && a != b && !faults(b)
    ensures InitFrom(l, [a] + ([b] + []), faults).log == l.log + [InitStarted(b)] + [InitDone(b)]
  {
    SkipOne(l, a, [b] + [], faults);
    InitOne(l, b, [], faults);
  }

  lemma TwiceFrom(a: nat, b: nat, none: Faults, first: Faults)
    requires a != b && !none(a) && !none(b) && first(a) && !first(b)
    ensures var init := Initialize(Some([a] + ([b] + [])), true, false, none);
            InitStarts(Step(Step(Step(START, init), Finalize(true, first)), init).log) == [a, b, b]
  {
    var init := Initialize(Some([a] + ([b] + [])), true, false, none);
    var l0 := START.(preinit := true, log := START.log + [PreinitStarted] + [PreinitDone]);
    BothUp(l0, a, b, none);
    var up := Step(START, init);
    HalfDown(up, a, b, first);
    var down := Step(up, Finalize(true, first));
    SecondUpAgain(down, a, b, none);
    StartsUp(l0.log, a, b);
    StartsDown(up.log, a, b);
  }

  lemma StartsUp(log: seq<Event>, a: nat, b: nat)
    requires log == [] + [PreinitStarted] + [PreinitDone]
    ensures InitStarts(log + [InitStarted(a)] + [InitDone(a)] + [InitStarted(b)] + [InitDone(b)]) == [a, b]
  {
    LogMore([], PreinitStarted);
    LogMore([] + [PreinitStarted], PreinitDone);
    LogStarts(log, a);
    LogStarts(log + [InitStarted(a)] + [InitDone(a)], b);
    assert [] + [a] + [b] == [a, b];
  }

  lemma StartsDown(log: seq<Event>, a: nat, b: nat)
    ensures InitStarts(log + [FiniStarted(b)] + [FiniDone(b)] + [FiniStarted(a)] + [InitStarted(b)] + [InitDone(b)])
            == InitStarts(log) + [b]
  {
    LogUnwinds(log, b);
    LogMore(log + [FiniStarted(b)] + [FiniDone(b)], FiniStarted(a));
    LogStarts(log + [FiniStarted(b)] + [FiniDone(b)] + [FiniStarted(a)], b);
  }

  /** Module 1 depends on module 0. */
  const PAIR: Graph := [[], [0]]

  lemma PairOrder()
    ensures IsOrder(PAIR, 1, [0, 1])
  {
    assert ReachIn(PAIR, 1, 1, 0) && ReachIn(PAIR, 0, 0, 0);
    assert 0 in PAIR[1] && ReachIn(PAIR, 1, 0, 1);
    forall v: nat | Reach(PAIR, 1, v) ensures v in [0, 1] {
      var n: nat :| ReachIn(PAIR, 1, v, n);
      PairReach(v, n);
    }
    assert Follows(PAIR, [0, 1], 0) && Follows(PAIR, [0, 1], 1);
  }

  lemma PairReach(v: nat, n: nat)
    requires ReachIn(PAIR, 1, v, n)
    ensures v == 0 || v == 1
  {
    if n > 0 {
      var w: nat :| w in PAIR[1] && ReachIn(PAIR, w, v, n - 1);
      assert w == 0;
    }
  }

  /** A program of two modules, the second depending on the first: both come up, the second goes down, the first faults
      while going down, and the next call brings the second up again. */
  lemma ReinitialisedAfterFailedFini() returns (calls: seq<Call>)
    ensures IsOrder(PAIR, 1, [0, 1]) && OneOrder(calls, [0, 1])
    ensures InitStarts(Run(calls).log) == [0, 1, 1] && !Harmless(calls)
  {
    PairOrder();
    var init := Initialize(Some([0] + ([1] + [])), true, false, _ => false);
    calls := [init, Finalize(true, m => m == 0), init];
    TwiceFrom(0, 1, _ => false, m => m == 0);
    assert [0] + ([1] + []) == [0, 1];
    assert calls[..2][..1] == calls[..1] && calls[..1][..0] == [];
    assert Run(calls[..1]) == Step(START, init) && Run(calls[..2]) == Step(Run(calls[..1]), calls[1]);
    LifecycleExact(calls, [0, 1]);
  }
}
