/**
 Guest mutexes and condition variables as a step machine over any number of threads.

 A step runs from one host-lock acquisition to the next, so a program counter names
 either the host lock a thread is about to take (with the locks it already holds), a
 sleep, a pending notification, or the result it returned to the guest.
 */
module Sync {
  import opened Base

  type Tid = nat    // host thread
  type Rid = nat    // mutex record
  type Cid = nat    // condition record
  type Kid = nat    // per-waiter wake token

  datatype Kind = ErrorCheck | Recursive | Normal | Adaptive

  /** `handle` is the table key the record was published under; it never changes. */
  datatype MutexRec = MutexRec(locked: bool, owner: Option<Tid>, depth: nat, waiters: nat, kind: Kind, handle: U64)

  datatype CondRec = CondRec(queue: seq<Kid>, handle: U64)

  /** `owner` and `cond` record which wait created the token. */
  datatype Token = Token(signaled: bool, owner: Tid, cond: Cid)

  /** What `cond_wait` keeps on its stack once it has released mutex `m` at depth `d`. */
  datatype Wait = Wait(c: Cid, m: Rid, slot: U64, d: nat, k: Kid, timedOut: bool)

  /** Who called `mutex_lock`: the guest, or the tail of a condition wait. */
  datatype Cont = Plain | Rewait(w: Wait)

  datatype MutexReq =
    | ReqLock(k: Cont)
    | ReqUnlock
    | ReqInit(kind: Kind)
    | ReqDestroy
    | ReqWait(condSlot: U64, timed: bool)

  datatype CondReq =
    | ReqCondInit
    | ReqCondDestroy
    | ReqCondWait(m: Rid, slot: U64, timed: bool)
    | ReqSignal
    | ReqBroadcast
    | ReqExpire(w: Wait)

  datatype Result =
    | Code(code: int)
    | WaitDone(w: Wait, got: Rid, code: int)    // cond_wait returned after re-acquiring `got`
    | WaitFailed(w: Wait, code: int)            // cond_wait could not re-acquire

  datatype Pc =
    | Ret(res: Result)
    | MutexTable(slot: U64, req: MutexReq)
    | MutexRecord(slot: U64, h: U64, r: Rid, req: MutexReq)
    | Asleep(r: Rid, k: Cont)
    | Woken(r: Rid, k: Cont)
    | UnlockNotify(r: Rid)
    | CondTable(slot: U64, creq: CondReq)
    | CondRecord(slot: U64, h: U64, c: Cid, creq: CondReq)
    | WaitMutex(c: Cid, m: Rid, slot: U64, timed: bool)
    | WaitNotify(w: Wait, timed: bool)
    | TokenCheck(w: Wait, timed: bool)
    | TokenAsleep(w: Wait, timed: bool)
    | TokenWoken(w: Wait, timed: bool, expired: bool)
    | ExpireToken(w: Wait)
    | Restore(w: Wait, got: Rid)
    | SignalToken(c: Cid, t: Kid)
    | BroadcastToken(c: Cid, t: Kid, marked: seq<Kid>, all: seq<Kid>)
    | NotifyTokens(pending: seq<Kid>)

  /** Guest-visible ownership history. */
  datatype Event =
    | Locked(t: Tid, r: Rid)
    | Unlocked(t: Tid, r: Rid)
    | Released(t: Tid, r: Rid)                 // by a condition wait
    | Restored(t: Tid, r: Rid, d: nat)         // by a condition wait

  /** `mem` holds the readable guest slots, `wr` the writable ones. */
  datatype State = State(
    thr: map<Tid, Pc>,
    mrec: map<Rid, MutexRec>, mtab: map<U64, Rid>,
    crec: map<Cid, CondRec>, ctab: map<U64, Cid>,
    tok: map<Kid, Token>,
    mem: map<U64, U64>, wr: set<U64>,
    log: seq<Event>)

  const MUTEX_ADAPTIVE_INITIALIZER: U64 := 1
  const MUTEX_DESTROYED: U64 := 2
  const COND_DESTROYED: U64 := 1
  const DEPTH_MAX: nat := U64_MAX

  // ---- Host locks -------------------------------------------------------

  datatype HostLock = CondTableLock | CondLock(c: Cid) | MutexTableLock | MutexLock(r: Rid) | TokenLock(k: Kid)

  function Rank(l: HostLock): nat {
    match l
    case CondTableLock => 0
    case CondLock(_) => 1
    case MutexTableLock => 2
    case MutexLock(_) => 3
    case TokenLock(_) => 4
  }

  /** The host locks a thread holds while it is at `pc`. */
  function Held(pc: Pc): set<HostLock> {
    if pc.MutexRecord? then {MutexTableLock}
    else if pc.CondRecord? then {CondTableLock}
    else if pc.WaitMutex? then {CondLock(pc.c)}
    else if pc.WaitNotify? then {CondLock(pc.w.c)}
    else if pc.ExpireToken? then {CondTableLock, CondLock(pc.w.c)}
    else if pc.SignalToken? || pc.BroadcastToken? then {CondLock(pc.c)}
    else {}
  }

  /** The host lock the step at `pc` starts by acquiring. */
  function Wants(pc: Pc): Option<HostLock> {
    match pc
    case MutexTable(_, _) => Some(MutexTableLock)
    case MutexRecord(_, _, r, _) => Some(MutexLock(r))
    case Woken(r, _) => Some(MutexLock(r))
    case CondTable(_, _) => Some(CondTableLock)
    case CondRecord(_, _, c, _) => Some(CondLock(c))
    case WaitMutex(_, m, _, _) => Some(MutexLock(m))
    case TokenCheck(w, _) => Some(TokenLock(w.k))
    case TokenWoken(w, _, _) => Some(TokenLock(w.k))
    case ExpireToken(w) => Some(TokenLock(w.k))
    case Restore(w, _) => Some(MutexLock(w.m))
    case SignalToken(_, k) => Some(TokenLock(k))
    case BroadcastToken(_, k, _, _) => Some(TokenLock(k))
    case _ => None
  }

  ghost predicate Free(s: State, t: Tid, l: HostLock) {
    forall u :: u in s.thr && u != t ==> l !in Held(s.thr[u])
  }

  /** Thread `t` may take its next step: the lock it wants is not held by another thread. */
  ghost predicate Ready(s: State, t: Tid) {
    t in s.thr && (Wants(s.thr[t]).Some? ==> Free(s, t, Wants(s.thr[t]).value))
  }

  // ---- Slot lookup ------------------------------------------------------

  datatype Look = Miss(code: int) | Hit(id: nat) | Make(kind: Kind)

  function LookMutex(s: State, slot: U64, create: bool): Look {
    if slot !in s.mem || s.mem[slot] == MUTEX_DESTROYED then Miss(EINVAL)
    else if s.mem[slot] == 0 || s.mem[slot] == MUTEX_ADAPTIVE_INITIALIZER then
      if !create then Miss(EPERM)
      else if slot !in s.wr then Miss(EINVAL)
      else Make(if s.mem[slot] == 0 then ErrorCheck else Adaptive)
    else if s.mem[slot] in s.mtab then Hit(s.mtab[s.mem[slot]])
    else Miss(EINVAL)
  }

  function LookCond(s: State, slot: U64): Look {
    if slot !in s.mem || s.mem[slot] == COND_DESTROYED then Miss(EINVAL)
    else if s.mem[slot] == 0 then
      if slot !in s.wr then Miss(EINVAL) else Make(ErrorCheck)
    else if s.mem[slot] in s.ctab then Hit(s.ctab[s.mem[slot]])
    else Miss(EINVAL)
  }

  ghost predicate FreshMutex(s: State, r: Rid, h: U64) {
    r !in s.mrec && h > MUTEX_DESTROYED && h !in s.mtab
  }

  ghost predicate FreshCond(s: State, c: Cid, h: U64) {
    c !in s.crec && h > COND_DESTROYED && h !in s.ctab
  }

  function AddMutex(s: State, slot: U64, r: Rid, h: U64, kind: Kind): State {
    s.(mrec := s.mrec[r := MutexRec(false, None, 0, 0, kind, h)], mtab := s.mtab[h := r], mem := s.mem[slot := h])
  }

  function AddCond(s: State, slot: U64, c: Cid, h: U64): State {
    s.(crec := s.crec[c := CondRec([], h)], ctab := s.ctab[h := c], mem := s.mem[slot := h])
  }

  function At(s: State, t: Tid, pc: Pc): State {
    s.(thr := s.thr[t := pc])
  }

  // ---- Calls ------------------------------------------------------------

  datatype Call =
    | CallLock(slot: U64) | CallUnlock(slot: U64) | CallInit(slot: U64, kind: Kind) | CallDestroy(slot: U64)
    | CallCondInit(slot: U64) | CallCondDestroy(slot: U64)
    | CallWait(slot: U64, mutexSlot: U64, timed: bool) | CallSignal(slot: U64) | CallBroadcast(slot: U64)

  function Entry(s: State, call: Call): Pc {
    if call.slot == 0 || (call.CallWait? && call.mutexSlot == 0) then Ret(Code(EINVAL))
    else match call
      case CallLock(slot) => MutexTable(slot, ReqLock(Plain))
      case CallUnlock(slot) => MutexTable(slot, ReqUnlock)
      case CallInit(slot, kind) => if slot in s.wr then MutexTable(slot, ReqInit(kind)) else Ret(Code(EINVAL))
      case CallDestroy(slot) => MutexTable(slot, ReqDestroy)
      case CallCondInit(slot) => if slot in s.wr then CondTable(slot, ReqCondInit) else Ret(Code(EINVAL))
      case CallCondDestroy(slot) => if slot in s.wr then CondTable(slot, ReqCondDestroy) else Ret(Code(EINVAL))
      case CallWait(slot, mutexSlot, timed) => MutexTable(mutexSlot, ReqWait(slot, timed))
      case CallSignal(slot) => CondTable(slot, ReqSignal)
      case CallBroadcast(slot) => CondTable(slot, ReqBroadcast)
  }

  // ---- Steps under the mutex table and records --------------------------

  /** How `mutex_lock` ends with `code` when it owns nothing new. */
  function LockFails(k: Cont, code: int): Pc {
    if k.Plain? then Ret(Code(code)) else Ret(WaitFailed(k.w, code))
  }

  function WaitCode(w: Wait): int {
    if w.timedOut then ETIMEDOUT else 0
  }

  /** Where `mutex_lock` continues after returning 0 with record `r`. */
  function LockReturns(r: Rid, k: Cont): Pc {
    if k.Plain? then Ret(Code(0))
    else if k.w.d > 1 then Restore(k.w, r)
    else Ret(WaitDone(k.w, r, WaitCode(k.w)))
  }

  /** The history entry of a successful `mutex_lock`; a depth still to be restored is logged by `Restore`. */
  function LockEvents(t: Tid, r: Rid, k: Cont): seq<Event> {
    if k.Plain? || k.w.m != r then [Locked(t, r)]
    else if k.w.d > 1 then []
    else [Restored(t, r, k.w.d)]
  }

  /** Under the mutex table lock: resolve the slot and go on to the record lock. */
  function MutexTableStep(s: State, t: Tid, slot: U64, req: MutexReq, r: Rid, h: U64): (s': State)
    ensures s'.tok == s.tok && s'.crec == s.crec && s'.ctab == s.ctab
  {
    match req
    case ReqInit(kind) =>
      if slot !in s.mem then At(s, t, Ret(Code(EINVAL)))
      else if s.mem[slot] > MUTEX_DESTROYED then At(s, t, Ret(Code(EBUSY)))
      else if slot !in s.wr then At(s, t, Ret(Code(EINVAL)))
      else At(AddMutex(s, slot, r, h, kind), t, Ret(Code(0)))
    case ReqDestroy =>
      if slot !in s.mem then At(s, t, Ret(Code(EINVAL)))
      else if s.mem[slot] < MUTEX_DESTROYED then At(s, t, Ret(Code(0)))
      else if s.mem[slot] == MUTEX_DESTROYED || s.mem[slot] !in s.mtab then At(s, t, Ret(Code(EINVAL)))
      else At(s, t, MutexRecord(slot, s.mem[slot], s.mtab[s.mem[slot]], req))
    case ReqUnlock => Looked(s, t, slot, req, LookMutex(s, slot, false), r, h)
    case _ => Looked(s, t, slot, req, LookMutex(s, slot, true), r, h)
  }

  function Looked(s: State, t: Tid, slot: U64, req: MutexReq, look: Look, r: Rid, h: U64): (s': State)
    ensures s'.tok == s.tok && s'.crec == s.crec && s'.ctab == s.ctab
  {
    match look
    case Miss(code) => At(s, t, if req.ReqLock? then LockFails(req.k, code) else Ret(Code(code)))
    case Hit(id) => At(s, t, AfterLook(slot, if slot in s.mem then s.mem[slot] else 0, req, id))
    case Make(kind) => At(AddMutex(s, slot, r, h, kind), t, AfterLook(slot, h, req, r))
  }

  function AfterLook(slot: U64, h: U64, req: MutexReq, r: Rid): Pc {
    if req.ReqWait? then CondTable(req.condSlot, ReqCondWait(r, slot, req.timed))
    else MutexRecord(slot, h, r, req)
  }

  function Take(s: State, t: Tid, r: Rid, k: Cont, waiters: nat): (s': State)
    requires r in s.mrec
    ensures s'.tok == s.tok && s'.crec == s.crec && s'.ctab == s.ctab
  {
    At(s.(mrec := s.mrec[r := s.mrec[r].(locked := true, owner := Some(t), depth := 1, waiters := waiters)],
          log := s.log + LockEvents(t, r, k)), t, LockReturns(r, k))
  }

  /** `mutex_lock` on its record. */
  function LockStep(s: State, t: Tid, r: Rid, k: Cont): (s': State)
    requires r in s.mrec
    ensures s'.tok == s.tok && s'.crec == s.crec && s'.ctab == s.ctab
  {
    var m := s.mrec[r];
    if m.locked && m.owner == Some(t) && m.kind == Recursive then
      if m.depth == DEPTH_MAX then At(s, t, LockFails(k, EAGAIN))
      else At(s.(mrec := s.mrec[r := m.(depth := m.depth + 1)], log := s.log + LockEvents(t, r, k)), t,
              LockReturns(r, k))
    else if m.locked && m.owner == Some(t) && m.kind != Normal then At(s, t, LockFails(k, EDEADLK))
    else if !m.locked then Take(s, t, r, k, m.waiters)
    else At(s.(mrec := s.mrec[r := m.(waiters := m.waiters + 1)]), t, Asleep(r, k))
  }

  /** A woken waiter re-checks `!locked` under the record lock. */
  function WokenStep(s: State, t: Tid, r: Rid, k: Cont): (s': State)
    requires r in s.mrec && s.mrec[r].waiters > 0
    ensures s'.tok == s.tok && s'.crec == s.crec && s'.ctab == s.ctab
  {
    if s.mrec[r].locked then At(s, t, Asleep(r, k)) else Take(s, t, r, k, s.mrec[r].waiters - 1)
  }

  function FreeRecord(m: MutexRec): MutexRec {
    m.(locked := false, owner := None, depth := 0)
  }

  function UnlockStep(s: State, t: Tid, r: Rid): (s': State)
    requires r in s.mrec
    ensures s'.tok == s.tok && s'.crec == s.crec && s'.ctab == s.ctab
  {
    var m := s.mrec[r];
    if !m.locked || m.owner != Some(t) then At(s, t, Ret(Code(EPERM)))
    else if m.kind == Recursive && m.depth > 1 then
      At(s.(mrec := s.mrec[r := m.(depth := m.depth - 1)], log := s.log + [Unlocked(t, r)]), t, Ret(Code(0)))
    else At(s.(mrec := s.mrec[r := FreeRecord(m)], log := s.log + [Unlocked(t, r)]), t, UnlockNotify(r))
  }

  function DestroyStep(s: State, t: Tid, slot: U64, h: U64, r: Rid): (s': State)
    requires r in s.mrec
    ensures s'.tok == s.tok && s'.crec == s.crec && s'.ctab == s.ctab
  {
    if s.mrec[r].locked || s.mrec[r].waiters != 0 then At(s, t, Ret(Code(EBUSY)))
    else if slot in s.wr then At(s.(mtab := s.mtab - {h}, mem := s.mem[slot := MUTEX_DESTROYED]), t, Ret(Code(0)))
    else At(s.(mtab := s.mtab - {h}), t, Ret(Code(EINVAL)))
  }

  /** `notify_one` on a mutex record: `v` is the sleeper the host picks, if there is one. */
  function NotifyMutex(s: State, r: Rid, v: Option<Tid>): (s': State)
    ensures s'.tok == s.tok && s'.crec == s.crec && s'.ctab == s.ctab
  {
    if v.Some? && v.value in s.thr && s.thr[v.value].Asleep? && s.thr[v.value].r == r
    then At(s, v.value, Woken(r, s.thr[v.value].k))
    else s
  }

  ghost predicate PicksSleeper(s: State, r: Rid, v: Option<Tid>) {
    if v.Some? then v.value in s.thr && s.thr[v.value].Asleep? && s.thr[v.value].r == r
    else forall u :: u in s.thr && s.thr[u].Asleep? ==> s.thr[u].r != r
  }

  // ---- Steps under the condition table and records -----------------------

  function CondTableStep(s: State, t: Tid, slot: U64, req: CondReq, c: Cid, h: U64): (s': State)
    ensures s'.tok == s.tok && s'.mtab == s.mtab
  {
    match req
    case ReqCondInit =>
      if slot !in s.wr then At(s, t, Ret(Code(EINVAL))) else At(AddCond(s, slot, c, h), t, Ret(Code(0)))
    case ReqCondDestroy =>
      if slot !in s.mem then At(s, t, Ret(Code(EINVAL)))
      else if s.mem[slot] == 0 then At(s, t, Ret(Code(0)))
      else if s.mem[slot] == COND_DESTROYED || s.mem[slot] !in s.ctab then At(s, t, Ret(Code(EINVAL)))
      else At(s, t, CondRecord(slot, s.mem[slot], s.ctab[s.mem[slot]], req))
    case ReqExpire(w) => At(s, t, CondRecord(slot, 0, w.c, req))
    case _ =>
      match LookCond(s, slot)
      case Miss(code) => At(s, t, Ret(Code(code)))
      case Hit(id) => At(s, t, CondRecord(slot, if slot in s.mem then s.mem[slot] else 0, id, req))
      case Make(_) => At(AddCond(s, slot, c, h), t, CondRecord(slot, h, c, req))
  }

  function CondRecordStep(s: State, t: Tid, slot: U64, h: U64, c: Cid, req: CondReq): (s': State)
    requires c in s.crec
    ensures s'.tok == s.tok && s'.mtab == s.mtab
  {
    var q := s.crec[c].queue;
    match req
    case ReqCondInit => s
    case ReqCondDestroy =>
      if q != [] then At(s, t, Ret(Code(EBUSY)))
      else if slot !in s.wr then At(s, t, Ret(Code(EINVAL)))
      else At(s.(ctab := s.ctab - {h}, mem := s.mem[slot := COND_DESTROYED]), t, Ret(Code(0)))
    case ReqCondWait(m, mutexSlot, timed) => At(s, t, WaitMutex(c, m, mutexSlot, timed))
    case ReqSignal => At(s, t, if q == [] then Ret(Code(0)) else SignalToken(c, q[0]))
    case ReqBroadcast => At(s, t, if q == [] then Ret(Code(0)) else BroadcastToken(c, q[0], [], q))
    case ReqExpire(w) => At(s, t, ExpireToken(w))
  }

  /** `cond_wait` with the condition and mutex records locked: enqueue, then release the guest mutex. */
  function WaitMutexStep(s: State, t: Tid, c: Cid, m: Rid, slot: U64, timed: bool, k: Kid): State
    requires c in s.crec && m in s.mrec
  {
    var rec := s.mrec[m];
    if !rec.locked || rec.owner != Some(t) then At(s, t, Ret(Code(EPERM)))
    else At(s.(crec := s.crec[c := s.crec[c].(queue := s.crec[c].queue + [k])],
               tok := s.tok[k := Token(false, t, c)],
               mrec := s.mrec[m := FreeRecord(rec)],
               log := s.log + [Released(t, m)]),
            t, WaitNotify(Wait(c, m, slot, rec.depth, k, false), timed))
  }

  function Rejoin(w: Wait, timedOut: bool): Pc {
    MutexTable(w.slot, ReqLock(Rewait(w.(timedOut := timedOut))))
  }

  /** A waiter looks at its token, first on arrival and then after every wake-up. */
  function TokenStep(s: State, t: Tid, w: Wait, timed: bool, expired: bool): (s': State)
    requires w.k in s.tok
    ensures s'.tok == s.tok && s'.mtab == s.mtab
  {
    if s.tok[w.k].signaled then At(s, t, Rejoin(w, false))
    else if expired then At(s, t, CondTable(0, ReqExpire(w)))
    else At(s, t, TokenAsleep(w, timed))
  }

  function Without(q: seq<Kid>, k: Kid): seq<Kid> {
    if q == [] then [] else if q[0] == k then q[1..] else [q[0]] + Without(q[1..], k)
  }

  /** The timeout-versus-signal race, decided with the condition record and the token locked. */
  function ExpireStep(s: State, t: Tid, w: Wait): (s': State)
    requires w.k in s.tok && w.c in s.crec
    ensures s'.tok == s.tok && s'.mtab == s.mtab
  {
    if s.tok[w.k].signaled then At(s, t, Rejoin(w, false))
    else At(s.(crec := s.crec[w.c := s.crec[w.c].(queue := Without(s.crec[w.c].queue, w.k))]), t, Rejoin(w, true))
  }

  function RestoreStep(s: State, t: Tid, w: Wait, got: Rid): (s': State)
    requires w.m in s.mrec
    ensures s'.tok == s.tok && s'.mtab == s.mtab
  {
    var m := s.mrec[w.m];
    var done := Ret(WaitDone(w, got, WaitCode(w)));
    if m.locked && m.owner == Some(t) && m.kind == Recursive then
      At(s.(mrec := s.mrec[w.m := m.(depth := w.d)], log := s.log + [Restored(t, w.m, w.d)]), t, done)
    else At(s, t, done)
  }

  /** Pop the front waiter and mark its token. */
  function Mark(s: State, c: Cid, k: Kid): State
    requires c in s.crec && s.crec[c].queue != [] && k in s.tok
  {
    s.(crec := s.crec[c := s.crec[c].(queue := s.crec[c].queue[1..])], tok := s.tok[k := s.tok[k].(signaled := true)])
  }

  function SignalStep(s: State, t: Tid, c: Cid, k: Kid): State
    requires c in s.crec && s.crec[c].queue != [] && k in s.tok
  {
    At(Mark(s, c, k), t, NotifyTokens([k]))
  }

  function BroadcastStep(s: State, t: Tid, c: Cid, k: Kid, marked: seq<Kid>, all: seq<Kid>): State
    requires c in s.crec && s.crec[c].queue != [] && k in s.tok
  {
    var rest := s.crec[c].queue[1..];
    At(Mark(s, c, k), t,
       if rest == [] then NotifyTokens(marked + [k]) else BroadcastToken(c, rest[0], marked + [k], all))
  }

  /** `notify_one` on a token: only its owner can be asleep on it. */
  function NotifyToken(s: State, k: Kid): (s': State)
    ensures s'.tok == s.tok && s'.mtab == s.mtab
  {
    if k in s.tok && s.tok[k].owner in s.thr && s.thr[s.tok[k].owner].TokenAsleep? && s.thr[s.tok[k].owner].w.k == k
    then
      var o := s.tok[k].owner;
      At(s, o, TokenWoken(s.thr[o].w, s.thr[o].timed, false))
    else s
  }

  function NotifyTokensStep(s: State, t: Tid, pending: seq<Kid>): (s': State)
    requires pending != []
    ensures s'.tok == s.tok && s'.mtab == s.mtab
  {
    At(NotifyToken(s, pending[0]), t, if |pending| == 1 then Ret(Code(0)) else NotifyTokens(pending[1..]))
  }
}
