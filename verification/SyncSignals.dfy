/** Whole signal and broadcast calls: which waiters a call marks before it returns. */
module SyncSignals {
  import opened Base
  import opened Sync
  import opened SyncSteps
  import opened SyncProof
  import opened SyncTheorems
  import opened SyncRuns
  import opened SyncCalls

  /** The slot names the condition record `c`. */
  predicate NamesCond(s: State, slot: U64, c: Cid) {
    slot in s.mem && s.mem[slot] in s.ctab && s.ctab[s.mem[slot]] == c
  }

  /** At some moment after `i` and no later than `n` the slot names `c`. */
  ghost predicate CondNamedBy(run: seq<State>, slot: U64, i: nat, n: nat, c: Cid) {
    exists m :: i < m <= n && m < |run| && NamesCond(run[m], slot, c)
  }

  /** The waiters that the call is to mark, of those queued: the first, or all. */
  function Chosen(q: seq<Kid>, all: bool): seq<Kid> { if all || q == [] then q else [q[0]] }

  /** Since `i` thread `t` has marked exactly the waiters in `ks`. */
  ghost predicate MarkedJust(run: seq<State>, acts: seq<Action>, i: nat, n: nat, t: Tid, ks: seq<Kid>) {
    forall k :: k in ks <==> MarkedBetween(run, acts, i, n, t, k)
  }

  // ---- One step ---------------------------------------------------------

  /** Thread `t`, or not thread `t`, marks nothing in this step. */
  ghost predicate MarksNothing(s: State, a: Action, s': State, t: Tid) {
    a.Run? && a.t == t ==> s'.tok == s.tok
  }

  lemma MarkedOn(run: seq<State>, acts: seq<Action>, i: nat, n: nat, t: Tid, ks: seq<Kid>)
    requires IsRun(run, acts) && i < n && n + 1 < |run| && MarkedJust(run, acts, i, n, t, ks)
    requires MarksNothing(run[n], acts[n], run[n + 1], t)
    ensures MarkedJust(run, acts, i, n + 1, t, ks)
  {
    forall k ensures k in ks <==> MarkedBetween(run, acts, i, n + 1, t, k) {
      assert !Marks(run, acts, n, t, k);
      if MarkedBetween(run, acts, i, n, t, k) { MarkedLater(run, acts, i, n, t, k); }
      if MarkedBetween(run, acts, i, n + 1, t, k) {
        var m: nat :| i < m < n + 1 && Marks(run, acts, m, t, k);
        assert MarkedBetween(run, acts, i, n, t, k);
      }
    }
  }

  lemma MarkedOneMore(run: seq<State>, acts: seq<Action>, i: nat, n: nat, t: Tid, ks: seq<Kid>, x: Kid)
    requires IsRun(run, acts) && i < n && n + 1 < |run| && MarkedJust(run, acts, i, n, t, ks)
    requires acts[n].Run? && acts[n].t == t && x in run[n].tok && !run[n].tok[x].signaled
             && run[n + 1].tok == run[n].tok[x := run[n].tok[x].(signaled := true)]
    ensures MarkedJust(run, acts, i, n + 1, t, ks + [x])
  {
    forall k ensures k in ks + [x] <==> MarkedBetween(run, acts, i, n + 1, t, k) {
      assert Marks(run, acts, n, t, k) <==> k == x;
      if MarkedBetween(run, acts, i, n, t, k) { MarkedLater(run, acts, i, n, t, k); }
      if MarkedBetween(run, acts, i, n + 1, t, k) && k != x {
        var m: nat :| i < m < n + 1 && Marks(run, acts, m, t, k);
        assert MarkedBetween(run, acts, i, n, t, k);
      }
    }
  }

  lemma NoneMarkedYet(run: seq<State>, acts: seq<Action>, i: nat, t: Tid)
    ensures MarkedJust(run, acts, i, i + 1, t, [])
  {
  }

  // ---- Where the call stands --------------------------------------------

  function Request(all: bool): CondReq { if all then ReqBroadcast else ReqSignal }

  function TheCall(slot: U64, all: bool): Call { if all then CallBroadcast(slot) else CallSignal(slot) }

  /** Where a call stands at `n`: before its record; at record `c`; marking; or done with the waiters that were queued
      on `c` at `x`. */
  ghost predicate Standing(run: seq<State>, acts: seq<Action>, t: Tid, slot: U64, all: bool, i: nat, n: nat, c: Cid,
                           x: nat)
  {
    && i < n < |run| && t in run[n].thr
    && var pc := run[n].thr[t];
       if pc.CondTable? then pc == CondTable(slot, Request(all)) && MarkedJust(run, acts, i, n, t, [])
       else if pc.CondRecord? then
         && pc.c == c && pc.creq == Request(all) && CondNamedBy(run, slot, i, n, c)
         && MarkedJust(run, acts, i, n, t, [])
       else
         && i < x < n && c in run[x].crec && CondNamedBy(run, slot, i, x, c)
         && var ks := Chosen(run[x].crec[c].queue, all);
            if pc.SignalToken? then !all && ks == [pc.t] && MarkedJust(run, acts, i, n, t, [])
            else if pc.BroadcastToken? then all && pc.all == ks && MarkedJust(run, acts, i, n, t, pc.marked)
            else (pc.NotifyTokens? || pc == Ret(Code(0))) && MarkedJust(run, acts, i, n, t, ks)
  }

  lemma NamedOn(run: seq<State>, slot: U64, i: nat, n: nat, n': nat, c: Cid)
    requires CondNamedBy(run, slot, i, n, c) && n <= n'
    ensures CondNamedBy(run, slot, i, n', c)
  {
    var m :| i < m <= n && m < |run| && NamesCond(run[m], slot, c);
  }

  lemma TableSignals(s: State, t: Tid, ch: Choice, s': State, slot: U64, all: bool)
    requires Step(s, t, ch, s') && s.thr[t] == CondTable(slot, Request(all))
    ensures t in s'.thr && s'.tok == s.tok
    ensures (s'.thr[t].Ret? && s'.thr[t].res.code != 0)
            || (s'.thr[t].CondRecord? && s'.thr[t].creq == Request(all) && NamesCond(s', slot, s'.thr[t].c))
  {
    TableFinds(s, t, slot, Request(all), ch.id, ch.h);
  }

  lemma TableFinds(s: State, t: Tid, slot: U64, creq: CondReq, c: Cid, h: U64)
    requires creq == ReqSignal || creq == ReqBroadcast
    ensures var s' := CondTableStep(s, t, slot, creq, c, h);
            && t in s'.thr && s'.tok == s.tok
            && ((s'.thr[t].Ret? && s'.thr[t].res.code != 0)
                || (s'.thr[t].CondRecord? && s'.thr[t].creq == creq && NamesCond(s', slot, s'.thr[t].c)))
  {
    var s' := CondTableStep(s, t, slot, creq, c, h);
    match LookCond(s, slot)
    case Miss(code) => assert s' == At(s, t, Ret(Code(code)));
    case Hit(id) => assert s'.thr[t].CondRecord? && s'.thr[t].c == id;
    case Make(_) => assert s'.thr[t].CondRecord? && s'.thr[t].c == c;
  }

  lemma RecordSignals(s: State, t: Tid, ch: Choice, s': State, slot: U64, h: U64, c: Cid, all: bool)
    requires Step(s, t, ch, s') && s.thr[t] == CondRecord(slot, h, c, Request(all))
    ensures c in s.crec && t in s'.thr && s'.tok == s.tok
    ensures var q := s.crec[c].queue;
            s'.thr[t] == if q == [] then Ret(Code(0)) else if all then BroadcastToken(c, q[0], [], q)
                         else SignalToken(c, q[0])
  {
  }

  lemma TokenSignals(s: State, t: Tid, ch: Choice, s': State, c: Cid, k: Kid)
    requires Inv(s) && Step(s, t, ch, s') && s.thr[t] == SignalToken(c, k)
    ensures k in s.tok && !s.tok[k].signaled && s'.tok == s.tok[k := s.tok[k].(signaled := true)]
    ensures t in s'.thr && s'.thr[t] == NotifyTokens([k])
  {
    assert ThreadOk(s, t, s.thr[t]);
    assert s.crec[c].queue[0] in s.crec[c].queue;
    assert QueuedOk(s, c, k);
  }

  lemma TokenBroadcasts(s: State, t: Tid, ch: Choice, s': State, c: Cid, k: Kid, marked: seq<Kid>, all: seq<Kid>)
    requires Inv(s) && Step(s, t, ch, s') && s.thr[t] == BroadcastToken(c, k, marked, all)
    ensures k in s.tok && !s.tok[k].signaled && s'.tok == s.tok[k := s.tok[k].(signaled := true)]
    ensures t in s'.thr && var pc := s'.thr[t];
            (pc == NotifyTokens(marked + [k]) && all == marked + [k])
            || (pc.BroadcastToken? && pc.marked == marked + [k] && pc.all == all)
  {
    BroadcastSteps(s, t, ch, s', c, k, marked, all);
    assert ThreadOk(s, t, s.thr[t]);
    var q := s.crec[c].queue;
    if q[1..] == [] { assert q == [k]; }
  }

  lemma NotifySignals(s: State, t: Tid, ch: Choice, s': State)
    requires Step(s, t, ch, s') && s.thr[t].NotifyTokens?
    ensures t in s'.thr && s'.tok == s.tok && (s'.thr[t].NotifyTokens? || s'.thr[t] == Ret(Code(0)))
  {
    NotifyNext(s, t, s.thr[t].pending);
  }

  // ---- Following the call -----------------------------------------------

  lemma OthersStand(run: seq<State>, acts: seq<Action>, t: Tid, slot: U64, all: bool, i: nat, n: nat, c: Cid, x: nat)
    requires IsRun(run, acts) && n + 1 < |run| && Standing(run, acts, t, slot, all, i, n, c, x)
    requires !(acts[n].Run? && acts[n].t == t) && !run[n].thr[t].Ret?
    ensures Standing(run, acts, t, slot, all, i, n + 1, c, x)
  {
    assert StepAt(run, acts, n);
    RunsKeepInv(run, acts, n);
    OthersLeave(run[n], acts[n], run[n + 1], t);
    StandsOn(run, acts, t, slot, all, i, n, c, x);
  }

  /** A call that does not move stands where it stood. */
  lemma StandsOn(run: seq<State>, acts: seq<Action>, t: Tid, slot: U64, all: bool, i: nat, n: nat, c: Cid, x: nat)
    requires IsRun(run, acts) && n + 1 < |run| && Standing(run, acts, t, slot, all, i, n, c, x) && t in run[n + 1].thr
    requires run[n + 1].thr[t] == run[n].thr[t] && !(acts[n].Run? && acts[n].t == t)
    ensures Standing(run, acts, t, slot, all, i, n + 1, c, x)
  {
    var pc := run[n].thr[t];
    if pc.CondTable? { MarkedOn(run, acts, i, n, t, []); }
    else if pc.CondRecord? {
      MarkedOn(run, acts, i, n, t, []);
      NamedOn(run, slot, i, n, n + 1, c);
    } else {
      var ks := Chosen(run[x].crec[c].queue, all);
      if pc.SignalToken? { MarkedOn(run, acts, i, n, t, []); }
      else if pc.BroadcastToken? { MarkedOn(run, acts, i, n, t, pc.marked); }
      else { MarkedOn(run, acts, i, n, t, ks); }
    }
  }

  lemma TableStands(run: seq<State>, acts: seq<Action>, t: Tid, slot: U64, all: bool, i: nat, n: nat) returns (c: Cid)
    requires IsRun(run, acts) && i < n && n + 1 < |run| && acts[n].Run? && acts[n].t == t && t in run[n].thr
    requires run[n].thr[t] == CondTable(slot, Request(all)) && MarkedJust(run, acts, i, n, t, [])
    ensures t in run[n + 1].thr
    ensures (run[n + 1].thr[t].Ret? && run[n + 1].thr[t].res.code != 0)
            || Standing(run, acts, t, slot, all, i, n + 1, c, 0)
  {
    assert StepAt(run, acts, n);
    TableSignals(run[n], t, acts[n].ch, run[n + 1], slot, all);
    MarkedOn(run, acts, i, n, t, []);
    c := 0;
    if run[n + 1].thr[t].CondRecord? {
      c := run[n + 1].thr[t].c;
      assert NamesCond(run[n + 1], slot, c);
    }
  }

  lemma RecordStands(run: seq<State>, acts: seq<Action>, t: Tid, slot: U64, all: bool, i: nat, n: nat, c: Cid)
    requires IsRun(run, acts) && i < n && n + 1 < |run| && acts[n].Run? && acts[n].t == t && t in run[n].thr
    requires run[n].thr[t].CondRecord? && run[n].thr[t].c == c && run[n].thr[t].creq == Request(all)
    requires CondNamedBy(run, slot, i, n, c) && MarkedJust(run, acts, i, n, t, [])
    ensures Standing(run, acts, t, slot, all, i, n + 1, c, n)
  {
    assert StepAt(run, acts, n);
    var pc := run[n].thr[t];
    RecordSignals(run[n], t, acts[n].ch, run[n + 1], pc.slot, pc.h, c, all);
    MarkedOn(run, acts, i, n, t, []);
  }

  lemma MarkStands(run: seq<State>, acts: seq<Action>, t: Tid, slot: U64, all: bool, i: nat, n: nat, c: Cid, x: nat)
    requires IsRun(run, acts) && n + 1 < |run| && Standing(run, acts, t, slot, all, i, n, c, x)
    requires acts[n].Run? && acts[n].t == t && (run[n].thr[t].SignalToken? || run[n].thr[t].BroadcastToken?)
    ensures Standing(run, acts, t, slot, all, i, n + 1, c, x)
  {
    assert StepAt(run, acts, n);
    RunsKeepInv(run, acts, n);
    var pc := run[n].thr[t];
    if pc.SignalToken? {
      TokenSignals(run[n], t, acts[n].ch, run[n + 1], pc.c, pc.t);
      MarkedOneMore(run, acts, i, n, t, [], pc.t);
      assert [] + [pc.t] == [pc.t];
    } else {
      TokenBroadcasts(run[n], t, acts[n].ch, run[n + 1], pc.c, pc.t, pc.marked, pc.all);
      MarkedOneMore(run, acts, i, n, t, pc.marked, pc.t);
    }
  }

  lemma NotifyStands(run: seq<State>, acts: seq<Action>, t: Tid, slot: U64, all: bool, i: nat, n: nat, c: Cid, x: nat)
    requires IsRun(run, acts) && n + 1 < |run| && Standing(run, acts, t, slot, all, i, n, c, x)
    requires acts[n].Run? && acts[n].t == t && run[n].thr[t].NotifyTokens?
    ensures Standing(run, acts, t, slot, all, i, n + 1, c, x)
  {
    assert StepAt(run, acts, n);
    NotifySignals(run[n], t, acts[n].ch, run[n + 1]);
    MarkedOn(run, acts, i, n, t, Chosen(run[x].crec[c].queue, all));
  }

  lemma StandingNext(run: seq<State>, acts: seq<Action>, t: Tid, slot: U64, all: bool, i: nat, n: nat, c: Cid, x: nat)
    returns (c': Cid, x': nat)
    requires IsRun(run, acts) && n + 1 < |run| && Standing(run, acts, t, slot, all, i, n, c, x) && !run[n].thr[t].Ret?
    ensures t in run[n + 1].thr
    ensures (run[n + 1].thr[t].Ret? && run[n + 1].thr[t].res.code != 0)
            || Standing(run, acts, t, slot, all, i, n + 1, c', x')
  {
    c', x' := c, x;
    var pc := run[n].thr[t];
    if !(acts[n].Run? && acts[n].t == t) { OthersStand(run, acts, t, slot, all, i, n, c, x); }
    else if pc.CondTable? {
      c' := TableStands(run, acts, t, slot, all, i, n);
      x' := 0;
    } else if pc.CondRecord? {
      RecordStands(run, acts, t, slot, all, i, n, c);
      x' := n;
    } else if pc.NotifyTokens? { NotifyStands(run, acts, t, slot, all, i, n, c, x); }
    else { MarkStands(run, acts, t, slot, all, i, n, c, x); }
  }

  lemma EntrySignals(s: State, t: Tid, ch: Choice, s': State, slot: U64, all: bool)
    requires Step(s, t, ch, s') && s.thr[t].Ret? && ch.call == TheCall(slot, all)
    ensures t in s'.thr && s'.thr[t] == if slot == 0 then Ret(Code(EINVAL)) else CondTable(slot, Request(all))
  {
  }

  lemma {:induction false} SignalFollowed(run: seq<State>, acts: seq<Action>, t: Tid, slot: U64, all: bool, i: nat,
                                          n: nat)
    returns (c: Cid, x: nat)
    requires IsRun(run, acts) && i < n < |run| && t in run[i].thr && run[i].thr[t].Ret?
             && CallsAt(acts, t, TheCall(slot, all), i)
    requires forall m {:trigger Busy(run, t, m)} :: i < m < n ==> Busy(run, t, m)
    ensures t in run[n].thr
    ensures (run[n].thr[t].Ret? && run[n].thr[t].res.code != 0) || Standing(run, acts, t, slot, all, i, n, c, x)
    decreases n
  {
    if n == i + 1 {
      assert StepAt(run, acts, i);
      EntrySignals(run[i], t, acts[i].ch, run[n], slot, all);
      NoneMarkedYet(run, acts, i, t);
      c, x := 0, 0;
    } else {
      assert Busy(run, t, n - 1);
      c, x := SignalFollowed(run, acts, t, slot, all, i, n - 1);
      c, x := StandingNext(run, acts, t, slot, all, i, n - 1, c, x);
    }
  }

  /** A signal or broadcast call that returns 0 has marked, of the waiters queued at some moment of the call on the
      condition that its slot named, exactly the first or exactly all. */
  lemma SignalCall(run: seq<State>, acts: seq<Action>, t: Tid, slot: U64, all: bool, i: nat, j: nat)
    returns (c: Cid, x: nat)
    requires IsRun(run, acts) && Calls(run, acts, t, TheCall(slot, all), i, j) && run[j].thr[t].res.code == 0
    ensures i < x < j && c in run[x].crec && CondNamedBy(run, slot, i, x, c)
    ensures var q := run[x].crec[c].queue;
            forall k :: MarkedBetween(run, acts, i, j, t, k) <==> if all then k in q else q != [] && k == q[0]
  {
    c, x := SignalFollowed(run, acts, t, slot, all, i, j);
  }
}
