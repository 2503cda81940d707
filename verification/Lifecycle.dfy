/** Initialising and finalising a program's modules, with guest code that may fault at any point. */
module Lifecycle {
  import opened Base
  import opened ModuleOrder

  datatype Event =
    | PreinitStarted | PreinitDone
    | InitStarted(m: nat) | InitDone(m: nat)
    | FiniStarted(m: nat) | FiniDone(m: nat)

  /** The lifecycle part of a loaded program; `done` are the modules whose initialisation completed, in that
      order, less those finalised since. `log` records what has run. */
  datatype Life = Life(done: seq<nat>, preinit: bool, initFailed: bool, finalized: bool, finiFailed: bool,
                       log: seq<Event>)

  const START := Life([], false, false, false, false, [])

  type Faults = nat -> bool

  /** initialize_program with a module order, or finalize_program. `resources` says whether a stack, a trampoline and
      a thread context could be made; the plan says whose functions fault. */
  datatype Call =
    | Initialize(order: Option<seq<nat>>, resources: bool, preFault: bool, faults: Faults)
    | Finalize(resources: bool, faults: Faults)

  // ---- What a call does -------------------------------------------------

  function InitFrom(l: Life, order: seq<nat>, faults: Faults): Life
    decreases |order|
  {
    if order == [] then l
    else
      var m := order[0];
      if m in l.done then InitFrom(l, order[1..], faults)
      else if faults(m) then l.(initFailed := true, log := l.log + [InitStarted(m)])
      else InitFrom(l.(done := l.done + [m], log := l.log + [InitStarted(m)] + [InitDone(m)]), order[1..], faults)
  }

  function InitCall(l: Life, order: Option<seq<nat>>, resources: bool, preFault: bool, faults: Faults): Life {
    if l.finalized || l.initFailed || order.None? || !resources then l
    else if l.preinit then InitFrom(l, order.value, faults)
    else if preFault then l.(initFailed := true, log := l.log + [PreinitStarted])
    else InitFrom(l.(preinit := true, log := l.log + [PreinitStarted] + [PreinitDone]), order.value, faults)
  }

  function FiniFrom(l: Life, faults: Faults): Life
    decreases |l.done|
  {
    if l.done == [] then l.(finalized := true)
    else
      var last := |l.done| - 1;
      var m := l.done[last];
      if faults(m) then l.(finiFailed := true, log := l.log + [FiniStarted(m)])
      else FiniFrom(l.(done := l.done[..last], log := l.log + [FiniStarted(m)] + [FiniDone(m)]), faults)
  }

  function FiniCall(l: Life, resources: bool, faults: Faults): Life {
    if l.finalized || l.finiFailed then l
    else if l.done == [] then l.(finalized := true)
    else if !resources then l
    else FiniFrom(l, faults)
  }

  function Step(l: Life, c: Call): Life {
    match c
    case Initialize(order, resources, preFault, faults) => InitCall(l, order, resources, preFault, faults)
    case Finalize(resources, faults) => FiniCall(l, resources, faults)
  }

  function Run(calls: seq<Call>): Life {
    if calls == [] then START else Step(Run(calls[..|calls| - 1]), calls[|calls| - 1])
  }

  // ---- The program, as it runs ------------------------------------------

  class Program {
    var graph: Graph
    var main: nat
    var initialized: seq<nat>
    var preinitialized: bool
    var initializationFailed: bool
    var finalized: bool
    var finalizationFailed: bool
    ghost var log: seq<Event>

    ghost function Snapshot(): Life
      reads this
    {
      Life(initialized, preinitialized, initializationFailed, finalized, finalizationFailed, log)
    }

    constructor (graph: Graph, main: nat)
      ensures Snapshot() == START && this.graph == graph && this.main == main
    {
      this.graph, this.main, initialized := graph, main, [];
      preinitialized, initializationFailed, finalized, finalizationFailed := false, false, false, false;
      log := [];
    }

    /** Runs everything not yet initialised, dependencies first, and stops at the first fault. */
    method Initialize(resources: bool, preFault: bool, faults: Faults) returns (ok: bool, ghost order: Option<seq<nat>>)
      modifies this`initialized, this`preinitialized, this`initializationFailed, this`log
      ensures Snapshot() == InitCall(old(Snapshot()), order, resources, preFault, faults)
      ensures order.Some? ==> IsOrder(graph, main, order.value)
      ensures order.None? ==> old(finalized) || old(initializationFailed) || Broken(graph, main)
      ensures ok <==> !old(finalized) && !old(initializationFailed) && order.Some? && resources && !initializationFailed
    {
      order := None;
      if finalized || initializationFailed { return false, None; }
      var sorted := InitializationOrder(graph, main);
      order := sorted;
      if sorted.None? || !resources { return false, order; }
      if !preinitialized {
        log := log + [PreinitStarted];
        if preFault {
          initializationFailed := true;
          return false, order;
        }
        log := log + [PreinitDone];
        preinitialized := true;
      }
      ok := InitializeModules(sorted.value, faults);
    }

    method InitializeModules(order: seq<nat>, faults: Faults) returns (ok: bool)
      requires !initializationFailed
      modifies this`initialized, this`initializationFailed, this`log
      ensures Snapshot() == InitFrom(old(Snapshot()), order, faults)
      ensures ok <==> !initializationFailed
    {
      assert order[0..] == order;
      for i := 0 to |order|
        invariant !initializationFailed
                  && InitFrom(old(Snapshot()), order, faults) == InitFrom(Snapshot(), order[i..], faults)
      {
        ghost var before := Snapshot();
        assert order[i..][0] == order[i] && order[i..][1..] == order[i + 1..];
        if order[i] in initialized { continue; }
        log := log + [InitStarted(order[i])];
        if faults(order[i]) {
          initializationFailed := true;
          return false;
        }
        log := log + [InitDone(order[i])];
        initialized := initialized + [order[i]];
      }
      return true;
    }

    /** Finalises completed modules from the last to the first, and stops at the first fault. */
    method FinalizeProgram(resources: bool, faults: Faults) returns (ok: bool)
      modifies this`initialized, this`finalized, this`finalizationFailed, this`log
      ensures Snapshot() == FiniCall(old(Snapshot()), resources, faults)
      ensures ok <==> finalized
    {
      if finalized { return true; }
      if finalizationFailed { return false; }
      if initialized == [] {
        finalized := true;
        return true;
      }
      if !resources { return false; }
      while initialized != []
        invariant !finalized && !finalizationFailed && FiniFrom(old(Snapshot()), faults) == FiniFrom(Snapshot(), faults)
        decreases |initialized|
      {
        var last := |initialized| - 1;
        var m := initialized[last];
        log := log + [FiniStarted(m)];
        if faults(m) {
          finalizationFailed := true;
          return false;
        }
        log := log + [FiniDone(m)];
        initialized := initialized[..last];
      }
      finalized := true;
      return true;
    }
  }

  // ---- Reading the log --------------------------------------------------

  function InitStarts(log: seq<Event>): seq<nat> {
    if log == [] then []
    else var e := log[|log| - 1]; InitStarts(log[..|log| - 1]) + (if e.InitStarted? then [e.m] else [])
  }

  function InitDones(log: seq<Event>): seq<nat> {
    if log == [] then []
    else var e := log[|log| - 1]; InitDones(log[..|log| - 1]) + (if e.InitDone? then [e.m] else [])
  }

  function FiniStarts(log: seq<Event>): seq<nat> {
    if log == [] then []
    else var e := log[|log| - 1]; FiniStarts(log[..|log| - 1]) + (if e.FiniStarted? then [e.m] else [])
  }

  function Backwards(s: seq<nat>): seq<nat> {
    if s == [] then [] else [s[|s| - 1]] + Backwards(s[..|s| - 1])
  }

  lemma LogMore(log: seq<Event>, e: Event)
    ensures InitStarts(log + [e]) == if e.InitStarted? then InitStarts(log) + [e.m] else InitStarts(log)
    ensures InitDones(log + [e]) == if e.InitDone? then InitDones(log) + [e.m] else InitDones(log)
    ensures FiniStarts(log + [e]) == if e.FiniStarted? then FiniStarts(log) + [e.m] else FiniStarts(log)
  {
    assert (log + [e])[..|log|] == log;
    assert InitStarts(log) + [] == InitStarts(log) && InitDones(log) + [] == InitDones(log)
           && FiniStarts(log) + [] == FiniStarts(log);
  }

  /** No initialisation starts twice, and finalisation runs the completed modules backwards from the last. */
  ghost predicate Safe(log: seq<Event>) {
    NoDup(InitStarts(log)) && NoDup(InitDones(log)) && FiniStarts(log) <= Backwards(InitDones(log))
  }

  /** Before any finalisation: what completed is what is recorded, and without a fault what started completed. */
  ghost predicate Building(l: Life) {
    && FiniStarts(l.log) == [] && l.done == InitDones(l.log) && NoDup(InitStarts(l.log)) && NoDup(l.done)
    && (!l.initFailed ==> InitStarts(l.log) == l.done) && !l.finiFailed
  }

  ghost predicate Closed(l: Life) { (l.finalized || l.finiFailed) && Safe(l.log) }

  ghost predicate Inv(l: Life) { Building(l) || Closed(l) }

  // ---- Every run --------------------------------------------------------

  lemma DistinctMore(s: seq<nat>, m: nat)
    requires NoDup(s) && m !in s
    ensures NoDup(s + [m])
  {
  }

  /** The log after one more module starts, and completes. */
  lemma LogStarts(log: seq<Event>, m: nat)
    ensures var started := log + [InitStarted(m)]; var completed := started + [InitDone(m)];
            && InitStarts(started) == InitStarts(completed) == InitStarts(log) + [m]
            && InitDones(started) == InitDones(log) && InitDones(completed) == InitDones(log) + [m]
            && FiniStarts(started) == FiniStarts(completed) == FiniStarts(log)
  {
    LogMore(log, InitStarted(m));
    LogMore(log + [InitStarted(m)], InitDone(m));
  }

  lemma StartsOne(l: Life, m: nat)
    requires Building(l) && !l.initFailed && m !in l.done
    ensures Building(l.(initFailed := true, log := l.log + [InitStarted(m)]))
    ensures Building(l.(done := l.done + [m], log := l.log + [InitStarted(m)] + [InitDone(m)]))
  {
    LogStarts(l.log, m);
    DistinctMore(l.done, m);
  }

  lemma {:induction false} InitFromKeeps(l: Life, order: seq<nat>, faults: Faults)
    requires Building(l) && !l.initFailed
    ensures Building(InitFrom(l, order, faults))
    decreases |order|
  {
    if order != [] {
      var m := order[0];
      if m in l.done {
        InitFromKeeps(l, order[1..], faults);
      } else {
        StartsOne(l, m);
        if !faults(m) {
          InitFromKeeps(l.(done := l.done + [m], log := l.log + [InitStarted(m)] + [InitDone(m)]), order[1..], faults);
        }
      }
    }
  }

  lemma InitCallKeeps(l: Life, c: Call)
    requires c.Initialize? && Building(l)
    ensures Building(Step(l, c))
  {
    if !(l.finalized || l.initFailed || c.order.None? || !c.resources) {
      if l.preinit {
        InitFromKeeps(l, c.order.value, c.faults);
      } else {
        LogMore(l.log, PreinitStarted);
        LogMore(l.log + [PreinitStarted], PreinitDone);
        if !c.preFault {
          InitFromKeeps(l.(preinit := true, log := l.log + [PreinitStarted] + [PreinitDone]), c.order.value, c.faults);
        }
      }
    }
  }

  /** Part of the way through finalisation: what has run and what is left make up the completed modules backwards. */
  ghost predicate Unwinding(l: Life) {
    && FiniStarts(l.log) + Backwards(l.done) == Backwards(InitDones(l.log))
    && NoDup(InitStarts(l.log)) && NoDup(InitDones(l.log))
  }

  /** The log after one more module starts to unwind, and completes. */
  lemma LogUnwinds(log: seq<Event>, m: nat)
    ensures var started := log + [FiniStarted(m)]; var completed := started + [FiniDone(m)];
            && InitStarts(started) == InitStarts(completed) == InitStarts(log)
            && InitDones(started) == InitDones(completed) == InitDones(log)
            && FiniStarts(started) == FiniStarts(completed) == FiniStarts(log) + [m]
  {
    LogMore(log, FiniStarted(m));
    LogMore(log + [FiniStarted(m)], FiniDone(m));
  }

  lemma Regroups(before: seq<nat>, m: nat, left: seq<nat>)
    ensures before + ([m] + left) == (before + [m]) + left && before + [m] <= before + ([m] + left)
  {
  }

  lemma UnwindsOne(l: Life)
    requires Unwinding(l) && l.done != []
    ensures var last := |l.done| - 1; var m := l.done[last];
            && Safe(l.log + [FiniStarted(m)])
            && Unwinding(l.(done := l.done[..last], log := l.log + [FiniStarted(m)] + [FiniDone(m)]))
  {
    var last := |l.done| - 1;
    LogUnwinds(l.log, l.done[last]);
    Regroups(FiniStarts(l.log), l.done[last], Backwards(l.done[..last]));
  }

  lemma {:induction false} FiniFromCloses(l: Life, faults: Faults)
    requires Unwinding(l)
    ensures Closed(FiniFrom(l, faults))
    decreases |l.done|
  {
    if l.done != [] {
      var last := |l.done| - 1;
      var m := l.done[last];
      UnwindsOne(l);
      if !faults(m) {
        FiniFromCloses(l.(done := l.done[..last], log := l.log + [FiniStarted(m)] + [FiniDone(m)]), faults);
      }
    } else {
      assert FiniStarts(l.log) + [] == FiniStarts(l.log);
    }
  }

  lemma FiniCallKeeps(l: Life, c: Call)
    requires c.Finalize? && Building(l)
    ensures Inv(Step(l, c))
  {
    if !l.finalized && l.done != [] && c.resources {
      assert [] + Backwards(l.done) == Backwards(InitDones(l.log));
      FiniFromCloses(l, c.faults);
    }
  }
}
