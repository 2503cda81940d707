/** What one initialise or finalise call gets done: which modules, in which order, and when it fails. */
module LifecycleCalls {
  import opened Base
  import opened ModuleOrder
  import opened Lifecycle

  // ---- What the calls log -----------------------------------------------

  /** The events of modules initialised one after the other. */
  function Ups(ms: seq<nat>): seq<Event> {
    if ms == [] then [] else [InitStarted(ms[0]), InitDone(ms[0])] + Ups(ms[1..])
  }

  /** The events of modules finalised from the last to the first. */
  function Downs(ms: seq<nat>): seq<Event> {
    if ms == [] then []
    else var last := |ms| - 1; [FiniStarted(ms[last]), FiniDone(ms[last])] + Downs(ms[..last])
  }

  // ---- Initialise -------------------------------------------------------

  /** When the module at place `i` came up, everything before it in the order was up. */
  ghost predicate InTurn(done: seq<nat>, order: seq<nat>, i: nat)
    requires i < |done|
  {
    exists j :: 0 <= j < |order| && order[j] == done[i] && forall x :: x in order[..j] ==> x in done[..i]
  }

  /** From `l` to `l'` the modules of `order` that were not up come up in that order, up to the first that faults. */
  ghost predicate ComesUp(l: Life, l': Life, order: seq<nat>, faults: Faults, k: nat) {
    && k <= |order| && l' == l.(done := l'.done, log := l'.log, initFailed := l'.initFailed)
    && l.done <= l'.done
    && (forall m :: m in l'.done[|l.done|..] ==> m in order[..k] && m !in l.done && !faults(m))
    && (forall m :: m in order[..k] ==> m in l'.done)
    && (forall i :: |l.done| <= i < |l'.done| ==> InTurn(l'.done, order, i))
    && if k == |order| then !l'.initFailed && l'.log == l.log + Ups(l'.done[|l.done|..])
       else && l'.initFailed && order[k] !in l'.done && faults(order[k])
            && l'.log == l.log + Ups(l'.done[|l.done|..]) + [InitStarted(order[k])]
  }

  lemma {:induction false} InitFromComesUp(l: Life, order: seq<nat>, faults: Faults) returns (k: nat)
    requires NoDup(order) && !l.initFailed
    ensures ComesUp(l, InitFrom(l, order, faults), order, faults, k)
    decreases |order|
  {
    var l' := InitFrom(l, order, faults);
    k := 0;
    if order != [] {
      var m, rest := order[0], order[1..];
      assert NoDup(rest) && m !in rest by {
        forall i, j | 0 <= i < j < |rest| ensures rest[i] != rest[j] { assert order[i + 1] != order[j + 1]; }
        forall i | 0 <= i < |rest| ensures rest[i] != m { assert order[0] != order[i + 1]; }
      }
      if m in l.done {
        var n := InitFromComesUp(l, rest, faults);
        k := n + 1;
        OneMoreSeen(l, l', order, faults, n);
      } else if !faults(m) {
        var l1 := l.(done := l.done + [m], log := l.log + [InitStarted(m)] + [InitDone(m)]);
        var n := InitFromComesUp(l1, rest, faults);
        k := n + 1;
        OneMoreUp(l, l1, l', order, faults, n);
      } else {
        assert l'.done[|l.done|..] == [] && l.log + Ups([]) == l.log;
      }
    } else {
      assert l'.done[|l.done|..] == [] && l.log + Ups([]) == l.log;
    }
  }

  lemma OneMoreSeen(l: Life, l': Life, order: seq<nat>, faults: Faults, n: nat)
    requires order != [] && order[0] in l.done && ComesUp(l, l', order[1..], faults, n)
    ensures ComesUp(l, l', order, faults, n + 1)
  {
    assert order[..n + 1] == [order[0]] + order[1..][..n];
    forall i | |l.done| <= i < |l'.done| ensures InTurn(l'.done, order, i) {
      assert l.done == l'.done[..|l.done|];
      TurnLater(l'.done, order, i);
    }
  }

  lemma TurnLater(done: seq<nat>, order: seq<nat>, i: nat)
    requires order != [] && i < |done| && order[0] in done[..i] && InTurn(done, order[1..], i)
    ensures InTurn(done, order, i)
  {
    var rest := order[1..];
    var j :| 0 <= j < |rest| && rest[j] == done[i] && forall x :: x in rest[..j] ==> x in done[..i];
    assert order[..j + 1] == [order[0]] + rest[..j] && order[j + 1] == rest[j];
  }

  lemma OneMoreUp(l: Life, l1: Life, l': Life, order: seq<nat>, faults: Faults, n: nat)
    requires order != [] && order[0] !in l.done && !faults(order[0])
    requires l1 == l.(done := l.done + [order[0]], log := l.log + [InitStarted(order[0])] + [InitDone(order[0])])
    requires ComesUp(l1, l', order[1..], faults, n)
    ensures ComesUp(l, l', order, faults, n + 1)
  {
    var m := order[0];
    assert order[..n + 1] == [m] + order[1..][..n];
    var added, later := l'.done[|l.done|..], l'.done[|l1.done|..];
    assert added == [m] + later by { assert l'.done[|l.done|] == l1.done[|l.done|]; }
    assert added[1..] == later;
    assert l1.log + Ups(later) == l.log + Ups(added);
    forall i | |l.done| <= i < |l'.done| ensures InTurn(l'.done, order, i) {
      assert l1.done == l'.done[..|l1.done|];
      if i == |l.done| {
        assert order[0] == l'.done[i] && order[..0] == [];
      } else {
        assert l'.done[..i][|l.done|] == m;
        TurnLater(l'.done, order, i);
      }
    }
  }

  /** Modules that come up in the turn of an order come up after their dependencies, unless these lead back to them. */
  lemma TurnFollows(g: Graph, main: nat, order: seq<nat>, done: seq<nat>, i: nat)
    requires IsOrder(g, main, order) && i < |done| && InTurn(done, order, i)
    ensures Follows(g, done, i)
  {
    var j :| 0 <= j < |order| && order[j] == done[i] && forall x :: x in order[..j] ==> x in done[..i];
    assert Follows(g, order, j);
  }

  /** The events of the pre-initialisation, if this call runs it. */
  function Pre(l: Life): seq<Event> { if l.preinit then [] else [PreinitStarted, PreinitDone] }

  /** An initialise call that is let through: it succeeds exactly when nothing that it has to run faults, and then every
      module that the main one reaches is up. Whatever comes up does so once, after its dependencies, and the log
      grows by just that. */
  lemma InitialiseExactly(l: Life, g: Graph, main: nat, order: seq<nat>, preFault: bool, faults: Faults)
    requires IsOrder(g, main, order) && !l.finalized && !l.initFailed
    ensures var l' := InitCall(l, Some(order), true, preFault, faults);
            && (!l'.initFailed <==> (l.preinit || !preFault)
                                    && forall v: nat :: Reach(g, main, v) && v !in l.done ==> !faults(v))
            && (!l'.initFailed ==> l'.preinit && forall v: nat :: Reach(g, main, v) ==> v in l'.done)
            && l.done <= l'.done && !l'.finalized && l'.finiFailed == l.finiFailed
            && (forall i :: |l.done| <= i < |l'.done| ==> Follows(g, l'.done, i) && l'.done[i] !in l.done)
            && (!l'.initFailed ==> l'.log == l.log + Pre(l) + Ups(l'.done[|l.done|..]))
  {
    var l' := InitCall(l, Some(order), true, preFault, faults);
    if !l.preinit && preFault {
      assert l'.done == l.done;
    } else {
      var l1 := if l.preinit then l else l.(preinit := true, log := l.log + [PreinitStarted] + [PreinitDone]);
      var k := InitFromComesUp(l1, order, faults);
      assert l1.log == l.log + Pre(l);
      forall i | |l.done| <= i < |l'.done| ensures Follows(g, l'.done, i) && l'.done[i] !in l.done {
        assert InTurn(l'.done, order, i);
        TurnFollows(g, main, order, l'.done, i);
        assert l'.done[i] in l'.done[|l.done|..];
      }
      UpExactly(l1, l', g, main, order, faults, k);
    }
  }

  lemma UpExactly(l: Life, l': Life, g: Graph, main: nat, order: seq<nat>, faults: Faults, k: nat)
    requires IsOrder(g, main, order) && ComesUp(l, l', order, faults, k)
    ensures !l'.initFailed <==> forall v: nat :: Reach(g, main, v) && v !in l.done ==> !faults(v)
    ensures !l'.initFailed ==> forall v: nat :: Reach(g, main, v) ==> v in l'.done
  {
    assert forall n :: 0 <= n < |l.done| ==> l.done[n] == l'.done[n];
    if k == |order| {
      assert order[..k] == order;
      forall v: nat | Reach(g, main, v) ensures v in l'.done && (v !in l.done ==> !faults(v)) {
        assert v in order && v in l'.done;
        if v !in l.done {
          var i :| 0 <= i < |l'.done| && l'.done[i] == v;
          assert l'.done[|l.done|..][i - |l.done|] == v;
        }
      }
    } else {
      var v := order[k];
      assert v in order && Reach(g, main, v);
    }
  }

  // ---- Finalise ---------------------------------------------------------

  /** From `l` to `l'` the modules that were up go down from the last to the first, up to the first that faults. */
  ghost predicate GoesDown(l: Life, l': Life, faults: Faults) {
    && l'.done <= l.done
    && l' == l.(done := l'.done, log := l'.log, finalized := l'.finalized, finiFailed := l'.finiFailed)
    && (forall m :: m in l.done[|l'.done|..] ==> !faults(m))
    && if l'.done == [] then l'.finalized && !l'.finiFailed && l'.log == l.log + Downs(l.done)
       else && !l'.finalized && l'.finiFailed && faults(l'.done[|l'.done| - 1])
            && l'.log == l.log + Downs(l.done[|l'.done|..]) + [FiniStarted(l'.done[|l'.done| - 1])]
  }

  lemma {:induction false} FiniFromGoesDown(l: Life, faults: Faults)
    requires !l.finalized && !l.finiFailed
    ensures GoesDown(l, FiniFrom(l, faults), faults)
    decreases |l.done|
  {
    var l' := FiniFrom(l, faults);
    if l.done == [] {
      assert l.log + Downs([]) == l.log;
    } else {
      var last := |l.done| - 1;
      var m := l.done[last];
      if faults(m) {
        assert l.done[|l.done|..] == [] && l.log + Downs([]) == l.log;
      } else {
        var l1 := l.(done := l.done[..last], log := l.log + [FiniStarted(m)] + [FiniDone(m)]);
        FiniFromGoesDown(l1, faults);
        OneMoreDown(l, l1, l', faults);
      }
    }
  }

  lemma OneMoreDown(l: Life, l1: Life, l': Life, faults: Faults)
    requires l.done != [] && !faults(l.done[|l.done| - 1])
    requires var m := l.done[|l.done| - 1];
             l1 == l.(done := l.done[..|l.done| - 1], log := l.log + [FiniStarted(m)] + [FiniDone(m)])
    requires GoesDown(l1, l', faults)
    ensures GoesDown(l, l', faults)
  {
    var last, n := |l.done| - 1, |l'.done|;
    var gone, later := l.done[n..], l1.done[n..];
    assert gone == later + [l.done[last]] && gone[..|gone| - 1] == later;
    assert l1.log + Downs(later) == l.log + Downs(gone);
    assert l'.done == [] ==> gone == l.done && later == l1.done;
  }

  /** A finalise call that is let through: it succeeds exactly when nothing that is up faults, and then nothing is up;
      the modules go down from the last that came up to the first, and the log grows by just that. */
  lemma FinaliseExactly(l: Life, faults: Faults)
    requires !l.finalized && !l.finiFailed
    ensures var l' := FiniCall(l, true, faults);
            && GoesDown(l, l', faults)
            && (l'.finalized <==> forall m :: m in l.done ==> !faults(m))
  {
    var l' := FiniCall(l, true, faults);
    if l.done == [] {
      assert l.log + Downs([]) == l.log;
    } else {
      FiniFromGoesDown(l, faults);
      if l'.done == [] {
        assert l.done[0..] == l.done;
      } else {
        assert l.done[|l'.done| - 1] == l'.done[|l'.done| - 1];
      }
    }
  }
}
