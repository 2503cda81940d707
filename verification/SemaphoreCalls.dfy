/** Whole semaphore calls: what the code that a call returns says about the tokens. */
module SemaphoreCalls {
  import opened Base
  import opened Semaphore

  // ---- One step ---------------------------------------------------------

  predicate Takes(req: Req) { req.Wait? || req.Try? || req.TimedTry? }

  /** The request that a call has at its record: a timed wait that found no token goes on as a wait. */
  predicate Serves(req: Req, now: Req) { now == req || (req.TimedTry? && now == Wait(true)) }

  /** Where a thread can be while it is in the call. */
  predicate Within(slot: U64, req: Req, pc: Pc) {
    match pc
    case Ret(_) => true
    case Table(x, now) => x == slot && Serves(req, now)
    case Record(x, _, _, now) => x == slot && Serves(req, now) && (now.Wait? || now.Destroy?)
    case Loose(x, _, now) => x == slot && now == req && !now.Wait? && !now.Destroy? && !now.Init?
    case Asleep(_, timed) => Serves(req, Wait(timed))
    case Woken(_, timed, expired) => Serves(req, Wait(timed)) && (expired ==> timed)
    case Notify(_) => req.Post?
  }

  /** The semaphore that the thread is at. */
  function SemOf(pc: Pc): Option<Sid> {
    match pc
    case Record(_, _, s, _) => Some(s)
    case Loose(_, s, _) => Some(s)
    case Asleep(s, _) => Some(s)
    case Woken(s, _, _) => Some(s)
    case Notify(s) => Some(s)
    case _ => None
  }

  /** The slot names semaphore `s`. */
  predicate Names(x: State, slot: U64, s: Sid) {
    slot != 0 && slot in x.mem && x.mem[slot] != 0 && x.mem[slot] in x.tab && x.tab[x.mem[slot]] == s
  }

  /** The slot names no semaphore. */
  predicate NamesNone(x: State, slot: U64) {
    slot == 0 || slot !in x.mem || x.mem[slot] == 0 || x.mem[slot] !in x.tab
  }

  /** A call for a token returns: it has taken one that was there, or there was none and the code says why. */
  ghost predicate TakeAnswer(x: State, x': State, slot: U64, pc: Pc, code: int) {
    match SemOf(pc)
    case None => code == EINVAL && NamesNone(x, slot) && x'.log == x.log
    case Some(s) =>
      if code == 0 then Tokens(x.log, s) > 0 && x'.log == x.log + [Taken(s)]
      else Tokens(x.log, s) == 0 && x'.log == x.log && (pc.Woken? ==> pc.expired)
           && code == if pc.Woken? then ETIMEDOUT else if pc.Loose? && pc.req.Try? then EAGAIN else EINVAL
  }

  /** Somebody waits for a token of `s`. */
  ghost predicate WaitedFor(x: State, s: Sid) {
    exists v :: v in x.thr && (x.thr[v].Asleep? || x.thr[v].Woken?) && x.thr[v].s == s
  }

  /** A destroy returns: the semaphore that the slot names at that moment is gone and the slot is empty; or somebody
      waits for the one that was looked up; or there is none, or no slot to empty. */
  ghost predicate DestroyAnswer(x: State, x': State, slot: U64, pc: Pc, code: int) {
    match SemOf(pc)
    case None => code == EINVAL && NamesNone(x, slot) && x'.tab == x.tab
    case Some(s) =>
      if WaitedFor(x, s) then code == EBUSY && x'.tab == x.tab && x'.mem == x.mem
      else if slot !in x.mem || slot !in x.wr then code == EINVAL && x'.tab == x.tab
      else code == 0 && x'.tab == x.tab - {x.mem[slot]} && x'.mem == x.mem[slot := 0]
  }

  /** What a step of thread `t` in a call does to the history, by where it leads. */
  ghost predicate Effect(x: State, x': State, t: Tid, slot: U64, req: Req) {
    && t in x.thr && t in x'.thr
    && var pc, pc' := x.thr[t], x'.thr[t];
       match pc'
       case Ret(code) =>
         if Takes(req) then TakeAnswer(x, x', slot, pc, code)
         else if req.Post? then
           && x'.log == x.log
           && (if pc.Notify? then code == 0
               else code == if pc.Table? then EINVAL else EOVERFLOW)
           && (pc.Table? ==> NamesNone(x, slot)) && (pc.Loose? ==> Tokens(x.log, pc.s) == VALUE_MAX)
         else if req.Init? then
           if code == 0
           then exists s :: s !in x.rec && Names(x', slot, s) && x'.log == x.log + [Created(s, req.value)]
           else code == EINVAL && slot !in x.wr && x'.log == x.log
         else
           && x'.log == x.log
           && if req.Destroy? then DestroyAnswer(x, x', slot, pc, code)
              else code == (if pc.Table? then EINVAL else 0) && (pc.Table? ==> NamesNone(x, slot))
       case Notify(s) => req.Post? && SemOf(pc) == Some(s) && Tokens(x.log, s) < VALUE_MAX
                         && x'.log == x.log + [Posted(s)]
       case _ => x'.log == x.log
  }

  /** The step stays with its semaphore, or has just looked it up. */
  ghost predicate Follows(x: State, x': State, t: Tid, slot: U64) {
    && t in x.thr && t in x'.thr
    && (SemOf(x'.thr[t]).Some? ==>
          SemOf(x'.thr[t]) == SemOf(x.thr[t]) || Names(x', slot, SemOf(x'.thr[t]).value))
  }

  lemma TableEffect(x: State, t: Tid, a: Action, x': State, slot: U64, req: Req)
    requires Inv(x) && Act(x, a, x') && a.Run? && a.t == t && x.thr[t].Table? && Within(slot, req, x.thr[t])
             && (req.Init? ==> slot != 0)
    ensures Effect(x, x', t, slot, req) && Within(slot, req, x'.thr[t]) && Follows(x, x', t, slot)
  {
  }

  lemma RecordEffect(x: State, t: Tid, a: Action, x': State, slot: U64, req: Req)
    requires Inv(x) && Act(x, a, x') && a.Run? && a.t == t && x.thr[t].Record? && Within(slot, req, x.thr[t])
    ensures Effect(x, x', t, slot, req) && Within(slot, req, x'.thr[t]) && Follows(x, x', t, slot)
  {
    assert RecOk(x, x.thr[t].s, x.rec[x.thr[t].s]);
    WaitedCount(x, x.thr[t].s);
  }

  /** The count of waiters is right. */
  lemma WaitedCount(x: State, s: Sid)
    requires Inv(x) && s in x.rec
    ensures x.rec[s].waiters > 0 <==> WaitedFor(x, s)
  {
    assert RecOk(x, s, x.rec[s]);
    if WaitedFor(x, s) {
      var v :| v in x.thr && (x.thr[v].Asleep? || x.thr[v].Woken?) && x.thr[v].s == s;
      assert v in Waiters(x.thr, s);
    } else {
      assert Waiters(x.thr, s) == {};
    }
  }

  lemma LooseEffect(x: State, t: Tid, a: Action, x': State, slot: U64, req: Req)
    requires Inv(x) && Act(x, a, x') && a.Run? && a.t == t && x.thr[t].Loose? && Within(slot, req, x.thr[t])
    ensures Effect(x, x', t, slot, req) && Within(slot, req, x'.thr[t]) && Follows(x, x', t, slot)
  {
    assert RecOk(x, x.thr[t].s, x.rec[x.thr[t].s]);
  }

  lemma WaitEffect(x: State, t: Tid, a: Action, x': State, slot: U64, req: Req)
    requires Inv(x) && Act(x, a, x') && a.Run? && a.t == t && Within(slot, req, x.thr[t])
    requires x.thr[t].Asleep? || x.thr[t].Woken? || x.thr[t].Notify?
    ensures Effect(x, x', t, slot, req) && Within(slot, req, x'.thr[t]) && Follows(x, x', t, slot)
  {
    if x.thr[t].Woken? { assert RecOk(x, x.thr[t].s, x.rec[x.thr[t].s]); }
  }

  lemma OwnEffect(x: State, t: Tid, a: Action, x': State, slot: U64, req: Req)
    requires Inv(x) && Act(x, a, x') && a.Run? && a.t == t && Within(slot, req, x.thr[t]) && (req.Init? ==> slot != 0)
    ensures Effect(x, x', t, slot, req) && Within(slot, req, x'.thr[t]) && Follows(x, x', t, slot)
  {
    var pc := x.thr[t];
    if pc.Table? { TableEffect(x, t, a, x', slot, req); }
    else if pc.Record? { RecordEffect(x, t, a, x', slot, req); }
    else if pc.Loose? { LooseEffect(x, t, a, x', slot, req); }
    else { WaitEffect(x, t, a, x', slot, req); }
  }

  lemma NotifyStays(x: State, u: Tid, s: Sid, t: Tid)
    requires t in x.thr && t != u
    ensures var x' := At(x.(thr := WakeAll(x.thr, s)), u, Ret(0));
            t in x'.thr
            && (x'.thr[t] == x.thr[t]
                || (x.thr[t].Asleep? && x'.thr[t] == Woken(x.thr[t].s, x.thr[t].timed, false)))
  {
  }

  lemma RecordStays(x: State, a: Action, x': State, t: Tid)
    requires Act(x, a, x') && t in x.thr && a.Run? && a.t != t
    requires x.thr[a.t].Record? || x.thr[a.t].Loose? || x.thr[a.t].Woken?
    ensures t in x'.thr && x'.thr[t] == x.thr[t]
  {
  }

  lemma OthersStay(x: State, a: Action, x': State, t: Tid)
    requires Act(x, a, x') && t in x.thr && (a.GuestStore? || a.t != t)
    ensures t in x'.thr
    ensures x'.thr[t] == x.thr[t] || (x.thr[t].Asleep? && x'.thr[t] == Woken(x.thr[t].s, x.thr[t].timed, false))
  {
    if a.Run? {
      var pc := x.thr[a.t];
      if pc.Notify? { NotifyStays(x, a.t, pc.s, t); }
      else if pc.Record? || pc.Loose? || pc.Woken? { RecordStays(x, a, x', t); }
    }
  }

  // ---- A call in a run --------------------------------------------------

  ghost predicate Calls(run: seq<State>, acts: seq<Action>, t: Tid, slot: U64, req: Req, i: nat, j: nat) {
    && i < j < |run| && |run| == |acts| + 1 && acts[i] == Call(t, slot, req) && t in run[j].thr && run[j].thr[t].Ret?
    && forall n {:trigger Busy(run, t, n)} :: i < n < j ==> Busy(run, t, n)
  }

  ghost predicate Busy(run: seq<State>, t: Tid, n: int) { 0 <= n < |run| && t in run[n].thr && !run[n].thr[t].Ret? }

  /** What thread `t` adds to the history in step `n`. */
  function Added(run: seq<State>, acts: seq<Action>, t: Tid, n: nat): seq<Event>
    requires n + 1 < |run| && n < |acts|
  {
    if acts[n].Run? && acts[n].t == t && |run[n].log| <= |run[n + 1].log| then run[n + 1].log[|run[n].log|..] else []
  }

  /** What thread `t` adds to the history from step `i` up to state `n`. */
  function Own(run: seq<State>, acts: seq<Action>, t: Tid, i: nat, n: nat): seq<Event>
    requires i <= n < |run| && |run| == |acts| + 1
    decreases n
  {
    if n == i then [] else Own(run, acts, t, i, n - 1) + Added(run, acts, t, n - 1)
  }

  /** The slot names semaphore `s` at some moment after `i` and no later than `n`. */
  ghost predicate NamedBy(run: seq<State>, slot: U64, i: nat, n: nat, s: Sid) {
    exists m :: i < m <= n && m < |run| && Names(run[m], slot, s)
  }

  /** A call under way: it has posted, and is about to notify, or it has added nothing yet. */
  ghost predicate Stands(run: seq<State>, acts: seq<Action>, t: Tid, slot: U64, req: Req, i: nat, n: nat) {
    && i < n < |run| && |run| == |acts| + 1 && Busy(run, t, n) && Within(slot, req, run[n].thr[t])
    && (req.Init? ==> slot != 0)
    && Own(run, acts, t, i, n) == (if run[n].thr[t].Notify? then [Posted(run[n].thr[t].s)] else [])
    && (SemOf(run[n].thr[t]).Some? ==> NamedBy(run, slot, i, n, SemOf(run[n].thr[t]).value))
  }

  /** What a call that returned has added: a token taken, posted or created at 0; nothing otherwise. */
  ghost predicate Answered(run: seq<State>, acts: seq<Action>, t: Tid, slot: U64, req: Req, i: nat, j: nat)
    requires i < j < |run| && |run| == |acts| + 1 && t in run[j].thr && run[j].thr[t].Ret?
  {
    var own := Own(run, acts, t, i, j);
    if run[j].thr[t].code != 0 || req.Destroy? || req.Get? || (req.Init? && slot == 0) then own == []
    else exists s :: NamedBy(run, slot, i, j, s)
                     && own == [if Takes(req) then Taken(s) else if req.Post? then Posted(s) else Created(s, req.value)]
  }

  lemma NamedLater(run: seq<State>, slot: U64, i: nat, n: nat, n': nat, s: Sid)
    requires NamedBy(run, slot, i, n, s) && n <= n'
    ensures NamedBy(run, slot, i, n', s)
  {
    var m :| i < m <= n && m < |run| && Names(run[m], slot, s);
  }

  lemma FollowsNamed(run: seq<State>, t: Tid, slot: U64, i: nat, n: nat, j: nat)
    requires i < n && j == n + 1 < |run| && Follows(run[n], run[j], t, slot) && SemOf(run[j].thr[t]).Some?
    requires SemOf(run[n].thr[t]).Some? ==> NamedBy(run, slot, i, n, SemOf(run[n].thr[t]).value)
    ensures NamedBy(run, slot, i, j, SemOf(run[j].thr[t]).value)
  {
    var s := SemOf(run[j].thr[t]).value;
    if SemOf(run[n].thr[t]) == Some(s) { NamedLater(run, slot, i, n, j, s); } else { assert Names(run[j], slot, s); }
  }

  lemma OwnAdds(run: seq<State>, acts: seq<Action>, t: Tid, i: nat, n: nat, j: nat, evs: seq<Event>)
    requires i <= n && j == n + 1 < |run| && |run| == |acts| + 1 && acts[n].Run? && acts[n].t == t
    requires run[j].log == run[n].log + evs
    ensures Own(run, acts, t, i, j) == Own(run, acts, t, i, n) + evs
  {
    assert run[j].log[|run[n].log|..] == evs;
    assert Added(run, acts, t, n) == evs;
    assert Own(run, acts, t, i, j) == Own(run, acts, t, i, n) + Added(run, acts, t, n);
  }

  /** Step `n` is one of the thread itself. */
  ghost predicate StepsOn(run: seq<State>, acts: seq<Action>, t: Tid, slot: U64, req: Req, i: nat, n: nat, j: nat) {
    && j == n + 1 < |run| && Stands(run, acts, t, slot, req, i, n) && acts[n].Run? && acts[n].t == t
    && Effect(run[n], run[j], t, slot, req) && Within(slot, req, run[j].thr[t]) && Follows(run[n], run[j], t, slot)
  }

  lemma ReturnsWith(run: seq<State>, acts: seq<Action>, t: Tid, slot: U64, req: Req, i: nat, j: nat, s: Sid, e: Event)
    requires i < j < |run| && |run| == |acts| + 1 && t in run[j].thr && run[j].thr[t] == Ret(0)
    requires NamedBy(run, slot, i, j, s) && Own(run, acts, t, i, j) == [e]
    requires (Takes(req) && e == Taken(s)) || (req.Post? && e == Posted(s))
             || (req.Init? && slot != 0 && e == Created(s, req.value))
    ensures Answered(run, acts, t, slot, req, i, j)
  {
  }

  lemma ReturnsWithout(run: seq<State>, acts: seq<Action>, t: Tid, slot: U64, req: Req, i: nat, j: nat)
    requires i < j < |run| && |run| == |acts| + 1 && t in run[j].thr && run[j].thr[t].Ret?
    requires run[j].thr[t].code != 0 || req.Destroy? || req.Get? || (req.Init? && slot == 0)
    requires Own(run, acts, t, i, j) == []
    ensures Answered(run, acts, t, slot, req, i, j)
  {
  }

  /** What a call for a token adds as it returns. */
  function TakeEvents(pc: Pc, code: int): seq<Event> {
    if code == 0 && SemOf(pc).Some? then [Taken(SemOf(pc).value)] else []
  }

  lemma TakeAdds(x: State, x': State, slot: U64, pc: Pc, code: int)
    requires TakeAnswer(x, x', slot, pc, code)
    ensures x'.log == x.log + TakeEvents(pc, code) && (code == 0 ==> SemOf(pc).Some?)
  {
  }

  /** A call for a token has added nothing before it returns. */
  lemma NothingYet(run: seq<State>, acts: seq<Action>, t: Tid, slot: U64, req: Req, i: nat, n: nat)
    requires Stands(run, acts, t, slot, req, i, n) && Takes(req)
    ensures Own(run, acts, t, i, n) == []
    ensures SemOf(run[n].thr[t]).Some? ==> NamedBy(run, slot, i, n, SemOf(run[n].thr[t]).value)
  {
  }

  lemma TakeOwns(run: seq<State>, acts: seq<Action>, t: Tid, slot: U64, req: Req, i: nat, n: nat, j: nat)
    requires StepsOn(run, acts, t, slot, req, i, n, j) && run[j].thr[t].Ret? && Takes(req)
    ensures Own(run, acts, t, i, j) == TakeEvents(run[n].thr[t], run[j].thr[t].code)
    ensures run[j].thr[t].code == 0 ==> SemOf(run[n].thr[t]).Some?
  {
    TakeAdds(run[n], run[j], slot, run[n].thr[t], run[j].thr[t].code);
    OwnAdds(run, acts, t, i, n, j, TakeEvents(run[n].thr[t], run[j].thr[t].code));
    NothingYet(run, acts, t, slot, req, i, n);
  }

  lemma TakeReturns(run: seq<State>, acts: seq<Action>, t: Tid, slot: U64, req: Req, i: nat, n: nat, j: nat)
    requires StepsOn(run, acts, t, slot, req, i, n, j) && run[j].thr[t].Ret? && Takes(req)
    ensures Answered(run, acts, t, slot, req, i, j)
  {
    TakeOwns(run, acts, t, slot, req, i, n, j);
    var pc, code := run[n].thr[t], run[j].thr[t].code;
    if code == 0 {
      var s := SemOf(pc).value;
      NamedLater(run, slot, i, n, j, s);
      ReturnsWith(run, acts, t, slot, req, i, j, s, Taken(s));
    } else {
      ReturnsWithout(run, acts, t, slot, req, i, j);
    }
  }

  lemma OtherReturns(run: seq<State>, acts: seq<Action>, t: Tid, slot: U64, req: Req, i: nat, n: nat, j: nat)
    requires StepsOn(run, acts, t, slot, req, i, n, j) && run[j].thr[t].Ret? && !Takes(req)
    ensures Answered(run, acts, t, slot, req, i, j)
  {
    var x, x', pc, code := run[n], run[j], run[n].thr[t], run[j].thr[t].code;
    if req.Init? && code == 0 {
      var s :| s !in x.rec && Names(x', slot, s) && x'.log == x.log + [Created(s, req.value)];
      assert NamedBy(run, slot, i, j, s);
      OwnAdds(run, acts, t, i, n, j, [Created(s, req.value)]);
      ReturnsWith(run, acts, t, slot, req, i, j, s, Created(s, req.value));
    } else {
      assert x'.log == x.log + [];
      OwnAdds(run, acts, t, i, n, j, []);
      if pc.Notify? {
        NamedLater(run, slot, i, n, j, pc.s);
        ReturnsWith(run, acts, t, slot, req, i, j, pc.s, Posted(pc.s));
      } else {
        ReturnsWithout(run, acts, t, slot, req, i, j);
      }
    }
  }

  lemma OwnGoesOn(run: seq<State>, acts: seq<Action>, t: Tid, slot: U64, req: Req, i: nat, n: nat, j: nat)
    requires StepsOn(run, acts, t, slot, req, i, n, j) && !run[j].thr[t].Ret? && !run[n].thr[t].Notify?
    ensures Stands(run, acts, t, slot, req, i, j)
  {
    var x, x', pc' := run[n], run[j], run[j].thr[t];
    if SemOf(pc').Some? { FollowsNamed(run, t, slot, i, n, j); }
    if pc'.Notify? {
      OwnAdds(run, acts, t, i, n, j, [Posted(pc'.s)]);
    } else {
      assert x'.log == x.log + [];
      OwnAdds(run, acts, t, i, n, j, []);
    }
  }

  lemma NotifyReturns(x: State, a: Action, x': State, t: Tid)
    requires Act(x, a, x') && a.Run? && a.t == t && t in x.thr && x.thr[t].Notify?
    ensures t in x'.thr && x'.thr[t].Ret?
  {
  }

  /** The call is still under way at `n`, or has returned with its answer. */
  ghost predicate Comes(run: seq<State>, acts: seq<Action>, t: Tid, slot: U64, req: Req, i: nat, n: nat) {
    && i < n < |run| && |run| == |acts| + 1 && t in run[n].thr
    && if run[n].thr[t].Ret? then Answered(run, acts, t, slot, req, i, n) else Stands(run, acts, t, slot, req, i, n)
  }

  /** One step of the thread itself: the call goes on, or returns with its answer. */
  lemma OwnNext(run: seq<State>, acts: seq<Action>, t: Tid, slot: U64, req: Req, i: nat, n: nat, j: nat)
    requires StepsOn(run, acts, t, slot, req, i, n, j) && (run[n].thr[t].Notify? ==> run[j].thr[t].Ret?)
    ensures Comes(run, acts, t, slot, req, i, j)
  {
    if !run[j].thr[t].Ret? { OwnGoesOn(run, acts, t, slot, req, i, n, j); }
    else if Takes(req) { TakeReturns(run, acts, t, slot, req, i, n, j); }
    else { OtherReturns(run, acts, t, slot, req, i, n, j); }
  }

  /** A step of another thread adds nothing that the thread itself adds. */
  lemma OwnWaits(run: seq<State>, acts: seq<Action>, t: Tid, i: nat, n: nat, j: nat)
    requires i <= n && j == n + 1 < |run| && |run| == |acts| + 1 && (acts[n].GuestStore? || acts[n].t != t)
    ensures Own(run, acts, t, i, j) == Own(run, acts, t, i, n)
  {
    assert Added(run, acts, t, n) == [];
  }

  lemma StaysOn(run: seq<State>, acts: seq<Action>, t: Tid, slot: U64, req: Req, i: nat, n: nat, j: nat)
    requires Stands(run, acts, t, slot, req, i, n) && j == n + 1 < |run| && t in run[j].thr
    requires Own(run, acts, t, i, j) == Own(run, acts, t, i, n)
    requires var pc, pc' := run[n].thr[t], run[j].thr[t];
             pc' == pc || (pc.Asleep? && pc' == Woken(pc.s, pc.timed, false))
    ensures Stands(run, acts, t, slot, req, i, j)
  {
    if SemOf(run[n].thr[t]).Some? { NamedLater(run, slot, i, n, j, SemOf(run[n].thr[t]).value); }
  }

  lemma OthersNext(run: seq<State>, acts: seq<Action>, t: Tid, slot: U64, req: Req, i: nat, n: nat, j: nat)
    requires IsRun(run, acts) && j == n + 1 < |run| && Stands(run, acts, t, slot, req, i, n)
             && (acts[n].GuestStore? || acts[n].t != t)
    ensures Comes(run, acts, t, slot, req, i, j)
  {
    assert Act(run[n], acts[n], run[j]);
    OthersStay(run[n], acts[n], run[j], t);
    OwnWaits(run, acts, t, i, n, j);
    StaysOn(run, acts, t, slot, req, i, n, j);
  }

  lemma StandsNext(run: seq<State>, acts: seq<Action>, t: Tid, slot: U64, req: Req, i: nat, n: nat, j: nat)
    requires IsRun(run, acts) && j == n + 1 < |run| && Stands(run, acts, t, slot, req, i, n)
    ensures Comes(run, acts, t, slot, req, i, j)
  {
    assert Act(run[n], acts[n], run[j]);
    RunsKeepInv(run, acts, n);
    if acts[n].GuestStore? || acts[n].t != t {
      OthersNext(run, acts, t, slot, req, i, n, j);
    } else {
      OwnEffect(run[n], t, acts[n], run[j], slot, req);
      if run[n].thr[t].Notify? { NotifyReturns(run[n], acts[n], run[j], t); }
      OwnNext(run, acts, t, slot, req, i, n, j);
    }
  }

  lemma Starts(run: seq<State>, acts: seq<Action>, t: Tid, slot: U64, req: Req, i: nat, j: nat)
    requires IsRun(run, acts) && j == i + 1 < |run| && acts[i] == Call(t, slot, req)
    ensures Comes(run, acts, t, slot, req, i, j)
  {
    assert Act(run[i], acts[i], run[j]);
    assert Own(run, acts, t, i, j) == Own(run, acts, t, i, i) + Added(run, acts, t, i) == [];
  }

  lemma {:induction false} Followed(run: seq<State>, acts: seq<Action>, t: Tid, slot: U64, req: Req, i: nat, n: nat)
    requires IsRun(run, acts) && i < n < |run| && acts[i] == Call(t, slot, req)
    requires forall m {:trigger Busy(run, t, m)} :: i < m < n ==> Busy(run, t, m)
    ensures Comes(run, acts, t, slot, req, i, n)
    decreases n
  {
    if n == i + 1 {
      Starts(run, acts, t, slot, req, i, n);
    } else {
      var m: nat := n - 1;
      assert Busy(run, t, m);
      Followed(run, acts, t, slot, req, i, m);
      StandsNext(run, acts, t, slot, req, i, m, n);
    }
  }

  /** A whole call: one that returns 0 has taken, posted or created exactly one token count, of a semaphore that its
      slot named during the call; one that returns an error has changed no count, nor has a destroy or a look at the
      value. */
  lemma SemaphoreCall(run: seq<State>, acts: seq<Action>, t: Tid, slot: U64, req: Req, i: nat, j: nat)
    requires IsRun(run, acts) && Calls(run, acts, t, slot, req, i, j)
    ensures Answered(run, acts, t, slot, req, i, j)
  {
    Followed(run, acts, t, slot, req, i, j);
  }

  /** A call that returns at once is refused for its arguments, or is an init of no slot. */
  lemma AtOnce(run: seq<State>, acts: seq<Action>, t: Tid, slot: U64, req: Req, i: nat, j: nat)
    requires IsRun(run, acts) && Calls(run, acts, t, slot, req, i, j) && i + 1 == j
    ensures req.Init? || req.Destroy?
    ensures if req.Init? && req.value <= 0x7fff_ffff && slot == 0 then run[j].thr[t].code == 0
            else run[j].thr[t].code == EINVAL
                 && (slot == 0 || slot !in run[i].wr || (req.Init? && req.value > 0x7fff_ffff))
    ensures run[j] == At(run[i], t, run[j].thr[t])
  {
    assert Act(run[i], acts[i], run[j]);
  }

  lemma ReturnsBy(run: seq<State>, acts: seq<Action>, t: Tid, slot: U64, req: Req, i: nat, n: nat, j: nat)
    requires IsRun(run, acts) && j == n + 1 < |run| && Stands(run, acts, t, slot, req, i, n)
    requires t in run[j].thr && run[j].thr[t].Ret?
    ensures Effect(run[n], run[j], t, slot, req)
  {
    RunsKeepInv(run, acts, n);
    assert Act(run[n], acts[n], run[j]);
    if acts[n].GuestStore? || acts[n].t != t {
      OthersStay(run[n], acts[n], run[j], t);
      assert false;
    } else {
      OwnEffect(run[n], t, acts[n], run[j], slot, req);
    }
  }

  /** The last step of a call that was let in: a call for a token returns 0 exactly if there was one; a post is refused
      only where the count is full, and any call that needs a semaphore where its slot names none. */
  lemma LastStep(run: seq<State>, acts: seq<Action>, t: Tid, slot: U64, req: Req, i: nat, j: nat)
    requires IsRun(run, acts) && Calls(run, acts, t, slot, req, i, j) && i + 1 < j
    ensures Busy(run, t, j - 1) && Effect(run[j - 1], run[j], t, slot, req)
  {
    var n: nat := j - 1;
    assert Busy(run, t, n);
    Followed(run, acts, t, slot, req, i, n);
    ReturnsBy(run, acts, t, slot, req, i, n, j);
  }
}
