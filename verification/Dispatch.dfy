/** Hot-reload dispatch (runtime/march_dispatch.c) as a state machine.

    One dispatch slot with its ring of code versions, the process-wide epoch pin table, the single
    publisher thread that runs activations (reserve an epoch, stage, commit, advance; the order of
    runtime/march_runtime.c:9020-9075) and any number of callers, each a code frame that pins an
    epoch, enters a version, runs and leaves.

    Every load, store and read-modify-write of a word that another thread may write is one step:
    callers' scans of the ring and of the pin table, the publisher's scans of the pin table and of
    the reference counts, and each field of a version being rewritten.  The publisher's loads of
    live, epoch, staged, keep and current are not separate steps, because it alone writes them. */
module Dispatch {
  import opened Wrappers

  const RING := 3        // MARCH_MAX_LIVE_VERSIONS
  const PIN_SLOTS := 8   // MARCH_EPOCH_PIN_SLOTS
  const EPOCH_BASE := 1  // MARCH_EPOCH_BASE

  type Tid = nat

  /** What a caller reads through a version: function pointer, kind and the two hashes. */
  datatype Code = Code(fn: int, kind: int, impl: int, sig: int)

  /** `want` is auxiliary: the code the publisher set out to write. */
  datatype Version = Version(live: bool, staged: bool, epoch: nat, code: Code, keep: bool, want: Code)

  /** A pin-table word: epoch in the high half, count in the low half. */
  datatype Pin = Pin(epoch: nat, count: nat)

  datatype Pub =
    | PIdle
    | PReserve(n: nat, i: nat) | PReserveCas(n: nat, i: nat, w: Pin)
    | PHave(n: nat)                                          // epoch reserved, nothing staged
    | PFree(n: nat, i: nat)                                  // version_free, i-th ring slot
    | PRecl(n: nat, i: nat, best: int)                       // version_reclaimable, i-th ring slot
    | PKeepScan(n: nat, i: nat, best: int, k: nat)           // pinned_in(1, epoch), k-th entry
    | PPinScan(n: nat, i: nat, best: int, k: nat)            // pinned_in(epoch, next newer), k-th entry
    | PRetire(n: nat, v: nat) | PRecheck(n: nat, v: nat)
    | PWrite(n: nat, v: nat, c: Code, phase: nat)
    | PStaged(n: nat, v: nat) | PCommit(n: nat, v: nat) | PCurrent(n: nat, v: nat)
    | PAdvance(n: nat)
    | PUnpin(e: nat, i: nat) | PUnpinCas(e: nat, i: nat, w: Pin)

  /** What a version held when a caller validated it (auxiliary). */
  datatype Snap = Snap(epoch: nat, code: Code)

  /** What a caller holds while it pins or unpins: nothing, or a validated version. */
  datatype Home = Away | Inside(v: nat, snap: Snap, gen: Option<nat>)

  datatype PC =
    | Out
    | CPin(e: nat, i: nat, home: Home) | CPinCas(e: nat, i: nat, w: Pin, home: Home)
    | CUnpin(e: nat, i: nat, home: Home) | CUnpinCas(e: nat, i: nat, w: Pin, home: Home)
    | GScan(e: nat, cur: nat, i: nat, best: int, bestEp: nat)   // before the load of live[i]
    | GEpoch(e: nat, cur: nat, i: nat, best: int, bestEp: nat)  // before the load of epoch[i]
    | GNone(e: nat)                                             // no match: fall back to enter
    | GBump(e: nat, v: nat, ep: nat) | GLive(e: nat, v: nat, ep: nat) | GSame(e: nat, v: nat, ep: nat, snap: Snap)
    | ELive(v: nat) | EBump(v: nat) | ECheck(v: nat)            // enter and enter_version
    | Back(v: nat)                                              // backing out: before the fetch_sub
    | In(v: nat, snap: Snap, gen: Option<nat>)                  // holds v; gen is enter_gen's epoch

  /** A pinned epoch, with the version it selected when it was pinned (auxiliary). */
  datatype Hold = Hold(e: nat, sel: int, snap: Snap)

  datatype Caller = Caller(pin: Option<Hold>, pc: PC)

  datatype State = State(
    ring: seq<Version>, refs: seq<int>, current: nat, epoch: nat,
    pins: seq<Pin>, pub: Pub, callers: map<Tid, Caller>)

  // ----- selection and the reclaim condition, as pure functions of a ring

  /** A live version usable at epoch e. */
  ghost predicate Usable(ring: seq<Version>, e: nat, j: int)
    requires |ring| == RING
  {
    0 <= j < RING && ring[j].live && ring[j].epoch <= e
  }

  /** Version i is the live version with the largest epoch at or below e. */
  ghost predicate Selected(ring: seq<Version>, e: nat, i: int)
    requires |ring| == RING
  {
    Usable(ring, e, i) && forall j :: j != i && Usable(ring, e, j) ==> ring[j].epoch < ring[i].epoch
  }

  /** The index enter_gen's scan would return on an unchanging ring; -1 for no match. */
  function Scan(ring: seq<Version>, cur: nat, e: nat, n: nat): int
    requires |ring| == RING && n <= RING
  {
    if n == 0 then -1
    else
      var best := Scan(ring, cur, e, n - 1);
      var v := ring[n - 1];
      if v.live && v.epoch <= e
         && (!(0 <= best < RING) || v.epoch > ring[best].epoch || (v.epoch == ring[best].epoch && n - 1 == cur))
      then n - 1 else best
  }

  datatype Limit = NoLimit | Below(n: nat) {
    predicate Admits(e: nat) { NoLimit? || e < n }
  }

  /** next_newer_epoch over the first n ring slots. */
  function NextNewer(ring: seq<Version>, i: nat, n: nat): Limit
    requires |ring| == RING && i < RING && n <= RING
  {
    if n == 0 then NoLimit
    else
      var best := NextNewer(ring, i, n - 1);
      var v := ring[n - 1];
      if n - 1 != i && v.live && v.epoch > ring[i].epoch && best.Admits(v.epoch) then Below(v.epoch) else best
  }

  /** version_shadowed: another live version of the same epoch wins the tie. */
  predicate Shadowed(ring: seq<Version>, i: nat, cur: nat)
    requires |ring| == RING && i < RING
  {
    && i != cur
    && exists j ::
         0 <= j < RING && j != i && ring[j].live && ring[j].epoch == ring[i].epoch && (j == cur || j < i)
  }

  /** The epochs pinned_in(epoch of i, next newer) asks about. */
  predicate InReach(ring: seq<Version>, i: nat, e: nat)
    requires |ring| == RING && i < RING
  {
    ring[i].epoch <= e && NextNewer(ring, i, RING).Admits(e)
  }

  // ----- publisher steps

  datatype Action =
    | ByPublisher(p: PubAction)
    | ByCaller(t: Tid, c: CallAction)

  datatype PubAction =
    | ReserveStart(n: nat) | ReserveLoad | ReserveCas | ReserveFull | AdvanceNow | Skip | Fail
    | UnpinLoad | UnpinCas
    | StageStart | FreeLoad(code: Code) | FreeNone | ReclCheck | KeepLoad | PinLoad | ReclDone
    | RetireStore | RecheckLoad(code: Code) | WriteField | SetKeep | Unstage | CommitStaged | CommitLive | CommitCurrent

  /** Reservation, advance and the publisher's own unpins. */
  ghost predicate PubPinStep(s: State, s': State, a: PubAction)
    requires |s.pins| == PIN_SLOTS
  {
    match (a, s.pub)
    case (ReserveStart(n), PIdle) =>
      // march_epoch_next: strictly above the current epoch
      n > s.epoch && s' == s.(pub := PReserve(n, 0))
    case (ReserveLoad, PReserve(n, i)) =>
      && i < PIN_SLOTS
      && s' == s.(pub := if s.pins[i].count == 0 then PReserveCas(n, i, s.pins[i]) else PReserve(n, i + 1))
    case (ReserveCas, PReserveCas(n, i, w)) =>
      && i < PIN_SLOTS
      && if s.pins[i] == w then s' == s.(pins := s.pins[i := Pin(n, 1)], pub := PHave(n))
         else s' == s.(pub := PReserve(n, i + 1))
    case (ReserveFull, PReserve(n, i)) =>
      i >= PIN_SLOTS && s' == s.(pub := PIdle)
    case (Skip, PHave(n)) =>
      // the activation does not touch this slot
      s' == s.(pub := PAdvance(n))
    case (Fail, PHave(n)) =>
      s' == s.(pub := PUnpin(n, 0))
    case (AdvanceNow, PAdvance(n)) =>
      s' == s.(epoch := n, pub := PUnpin(s.epoch, 0))
    case (UnpinLoad, PUnpin(e, i)) =>
      && i < PIN_SLOTS
      && s' == s.(pub := if s.pins[i].epoch == e && s.pins[i].count > 0 then PUnpinCas(e, i, s.pins[i])
                         else PUnpin(e, i + 1))
    case (UnpinCas, PUnpinCas(e, i, w)) =>
      // a failed CAS reloads the word and retries while it still matches
      && i < PIN_SLOTS
      && if s.pins[i] == w && w.count > 0 then s' == s.(pins := s.pins[i := Pin(w.epoch, w.count - 1)], pub := PIdle)
         else s' == s.(pub := PUnpin(e, i))
    case _ => false
  }

  /** pick_ring_slot. */
  ghost predicate PubScanStep(s: State, s': State, a: PubAction)
    requires |s.ring| == RING && |s.refs| == RING && |s.pins| == PIN_SLOTS
  {
    match (a, s.pub)
    case (StageStart, PHave(n)) =>
      s' == s.(pub := PFree(n, 0))
    case (FreeLoad(c), PFree(n, i)) =>
      && i < RING
      && if !s.ring[i].staged && !s.ring[i].live && s.refs[i] == 0
         then s' == s.(ring := s.ring[i := s.ring[i].(want := c)], pub := PWrite(n, i, c, 0))
         else s' == s.(pub := PFree(n, i + 1))
    case (FreeNone, PFree(n, i)) =>
      i >= RING && s' == s.(pub := PRecl(n, 0, -1))
    case (ReclCheck, PRecl(n, i, best)) =>
      && i < RING
      && var v := s.ring[i];
         if i == s.current || v.staged || !v.live || s.refs[i] != 0 then s' == s.(pub := PRecl(n, i + 1, best))
         else if v.keep && v.epoch > 0 then s' == s.(pub := PKeepScan(n, i, best, 0))
         else if Shadowed(s.ring, i, s.current) then s' == s.(pub := PRecl(n, i + 1, Older(s.ring, best, i)))
         else s' == s.(pub := PPinScan(n, i, best, 0))
    case (KeepLoad, PKeepScan(n, i, best, k)) =>
      && i < RING
      && if k >= PIN_SLOTS then
           (if Shadowed(s.ring, i, s.current) then s' == s.(pub := PRecl(n, i + 1, Older(s.ring, best, i)))
            else s' == s.(pub := PPinScan(n, i, best, 0)))
         else if s.pins[k].count > 0 && 1 <= s.pins[k].epoch < s.ring[i].epoch then
           s' == s.(pub := PRecl(n, i + 1, best))
         else s' == s.(pub := PKeepScan(n, i, best, k + 1))
    case (PinLoad, PPinScan(n, i, best, k)) =>
      && i < RING
      && if k >= PIN_SLOTS then s' == s.(pub := PRecl(n, i + 1, Older(s.ring, best, i)))
         else if s.pins[k].count > 0 && InReach(s.ring, i, s.pins[k].epoch) then s' == s.(pub := PRecl(n, i + 1, best))
         else s' == s.(pub := PPinScan(n, i, best, k + 1))
    case (ReclDone, PRecl(n, i, best)) =>
      i >= RING && s' == s.(pub := if 0 <= best then PRetire(n, best) else PUnpin(n, 0))
    case _ => false
  }

  /** The reclaimable version with the lowest epoch so far. */
  function Older(ring: seq<Version>, best: int, i: nat): int
    requires |ring| == RING && i < RING
  {
    if !(0 <= best < RING) || ring[i].epoch < ring[best].epoch then i else best
  }

  /** One field of the version being staged; the last one marks it staged. */
  function Rewrite(w: Version, n: nat, c: Code, phase: nat): Version {
    if phase == 0 then w.(code := w.code.(fn := c.fn))
    else if phase == 1 then w.(code := w.code.(kind := c.kind))
    else if phase == 2 then w.(code := w.code.(impl := c.impl))
    else if phase == 3 then w.(code := w.code.(sig := c.sig))
    else w.(epoch := n, keep := false, staged := true)
  }

  /** Retire, re-check, rewrite, commit or unstage. */
  ghost predicate PubRingStep(s: State, s': State, a: PubAction)
    requires |s.ring| == RING && |s.refs| == RING
  {
    match (a, s.pub)
    case (RetireStore, PRetire(n, v)) =>
      v < RING && s' == s.(ring := s.ring[v := s.ring[v].(live := false)], pub := PRecheck(n, v))
    case (RecheckLoad(c), PRecheck(n, v)) =>
      // a reader pinned in the window: leave the version retired and give up
      && v < RING
      && if s.refs[v] != 0 then s' == s.(pub := PUnpin(n, 0))
         else s' == s.(ring := s.ring[v := s.ring[v].(want := c)], pub := PWrite(n, v, c, 0))
    case (WriteField, PWrite(n, v, c, ph)) =>
      && v < RING
      && s' == s.(ring := s.ring[v := Rewrite(s.ring[v], n, c, ph)],
                  pub := if ph < 4 then PWrite(n, v, c, ph + 1) else PStaged(n, v))
    case (SetKeep, PStaged(n, v)) =>
      v < RING && s' == s.(ring := s.ring[v := s.ring[v].(keep := true)])
    case (Unstage, PStaged(n, v)) =>
      v < RING && s' == s.(ring := s.ring[v := s.ring[v].(staged := false)], pub := PUnpin(n, 0))
    case (CommitStaged, PStaged(n, v)) =>
      v < RING && s' == s.(ring := s.ring[v := s.ring[v].(staged := false)], pub := PCommit(n, v))
    case (CommitLive, PCommit(n, v)) =>
      v < RING && s' == s.(ring := s.ring[v := s.ring[v].(live := true)], pub := PCurrent(n, v))
    case (CommitCurrent, PCurrent(n, v)) =>
      s' == s.(current := v, pub := PAdvance(n))
    case _ => false
  }

  // ----- caller steps

  datatype CallAction =
    | PinStart(e: nat) | PinLoadWord | PinCas | PinMissing | UnpinStart | CUnpinLoad | CUnpinCasNow
    | GenStart(e: nat) | GenLive | GenEpoch | GenDone | GenFallBack | GenBump | GenCheckLive | GenCheckEpoch
    | EnterStart | EnterVersionStart(v: nat) | EnterLive | EnterBump | EnterCheck | BackOut | Leave

  ghost function With(s: State, t: Tid, pc: PC): map<Tid, Caller>
    requires t in s.callers
  {
    s.callers[t := s.callers[t].(pc := pc)]
  }

  /** march_epoch_pin and march_epoch_unpin. */
  ghost predicate PinStep(s: State, s': State, t: Tid, a: CallAction)
    requires |s.pins| == PIN_SLOTS && |s.ring| == RING && t in s.callers
  {
    var c := s.callers[t];
    match (a, c.pc)
    case (PinStart(e), Out) =>
      // the current epoch, or one inherited from a frame or proc: never above the current one
      c.pin.None? && 1 <= e <= s.epoch && s' == s.(callers := With(s, t, CPin(e, 0, Away)))
    case (PinStart(e), In(v, snap, _)) =>
      // a version frame pins after it has entered its version; that entry was not made under the pin
      c.pin.None? && 1 <= e <= s.epoch && s' == s.(callers := With(s, t, CPin(e, 0, Inside(v, snap, None))))
    case (PinLoadWord, CPin(e, i, home)) =>
      && i < PIN_SLOTS
      && s' == s.(callers := With(s, t,
           if s.pins[i].epoch == e && s.pins[i].count > 0 then CPinCas(e, i, s.pins[i], home)
           else CPin(e, i + 1, home)))
    case (PinMissing, CPin(e, i, home)) =>
      i >= PIN_SLOTS && s' == s.(callers := With(s, t, Resume(home)))
    case (PinCas, CPinCas(e, i, w, home)) =>
      && i < PIN_SLOTS
      && if s.pins[i] == w
         then s' == s.(pins := s.pins[i := Pin(w.epoch, w.count + 1)],
                       callers := s.callers[t := Caller(Some(Choose(s.ring, s.current, e)), Resume(home))])
         else s' == s.(callers := With(s, t, CPin(e, i, home)))
    case (UnpinStart, Out) =>
      c.pin.Some? && s' == s.(callers := With(s, t, CUnpin(c.pin.value.e, 0, Away)))
    case (UnpinStart, In(v, snap, gen)) =>
      // leaving a unit pops the frame, and its pin, before the version is released
      c.pin.Some? && s' == s.(callers := With(s, t, CUnpin(c.pin.value.e, 0, Inside(v, snap, gen))))
    case (CUnpinLoad, CUnpin(e, i, home)) =>
      && i < PIN_SLOTS
      && s' == s.(callers := With(s, t,
           if s.pins[i].epoch == e && s.pins[i].count > 0 then CUnpinCas(e, i, s.pins[i], home)
           else CUnpin(e, i + 1, home)))
    case (CUnpinCasNow, CUnpinCas(e, i, w, home)) =>
      && i < PIN_SLOTS
      && if s.pins[i] == w && w.count > 0
         then s' == s.(pins := s.pins[i := Pin(w.epoch, w.count - 1)],
                       callers := s.callers[t := Caller(None, Resume(home))])
         else s' == s.(callers := With(s, t, CUnpin(e, i, home)))
    case _ => false
  }

  /** Where a caller goes on after pinning or unpinning. */
  function Resume(h: Home): PC {
    match h
    case Away => Out
    case Inside(v, snap, gen) => In(v, snap, gen)
  }

  /** The auxiliary record of what an epoch selects at this moment. */
  ghost function Choose(ring: seq<Version>, cur: nat, e: nat): Hold
    requires |ring| == RING
  {
    var i := Scan(ring, cur, e, RING);
    Hold(e, i, if 0 <= i < RING then Snap(ring[i].epoch, ring[i].code) else Snap(0, Code(0, 0, 0, 0)))
  }

  /** march_dispatch_enter_gen, up to the increment. */
  ghost predicate GenScanStep(s: State, s': State, t: Tid, a: CallAction)
    requires |s.ring| == RING && t in s.callers
  {
    match (a, s.callers[t].pc)
    case (GenStart(e), Out) =>
      e >= 1 && s' == s.(callers := With(s, t, GScan(e, s.current, 0, -1, 0)))
    case (GenLive, GScan(e, cur, i, best, bestEp)) =>
      && i < RING
      && s' == s.(callers := With(s, t,
           if s.ring[i].live then GEpoch(e, cur, i, best, bestEp) else GScan(e, cur, i + 1, best, bestEp)))
    case (GenEpoch, GEpoch(e, cur, i, best, bestEp)) =>
      && i < RING
      && var ep := s.ring[i].epoch;
         s' == s.(callers := With(s, t,
           if ep <= e && (best < 0 || ep > bestEp || (ep == bestEp && i == cur)) then GScan(e, cur, i + 1, i, ep)
           else GScan(e, cur, i + 1, best, bestEp)))
    case (GenDone, GScan(e, cur, i, best, bestEp)) =>
      i >= RING && s' == s.(callers := With(s, t, if 0 <= best then GBump(e, best, bestEp) else GNone(e)))
    case (GenFallBack, GNone(e)) =>
      s' == s.(callers := With(s, t, ELive(s.current)))
    case _ => false
  }

  /** enter, enter_version and their first check. */
  ghost predicate EnterScanStep(s: State, s': State, t: Tid, a: CallAction)
    requires |s.ring| == RING && t in s.callers
  {
    match (a, s.callers[t].pc)
    case (EnterStart, Out) =>
      s' == s.(callers := With(s, t, ELive(s.current)))
    case (EnterVersionStart(v), Out) =>
      v < RING && s' == s.(callers := With(s, t, ELive(v)))
    case (EnterLive, ELive(v)) =>
      v < RING && s' == s.(callers := With(s, t, if s.ring[v].live then EBump(v) else Out))
    case _ => false
  }

  /** Increments, re-validation, back-out and leave. */
  ghost predicate RefStep(s: State, s': State, t: Tid, a: CallAction)
    requires |s.ring| == RING && |s.refs| == RING && t in s.callers
  {
    match (a, s.callers[t].pc)
    case (GenBump, GBump(e, v, ep)) =>
      v < RING && s' == s.(refs := s.refs[v := s.refs[v] + 1], callers := With(s, t, GLive(e, v, ep)))
    case (GenCheckLive, GLive(e, v, ep)) =>
      && v < RING
      && s' == s.(callers := With(s, t,
           if s.ring[v].live then GSame(e, v, ep, Snap(s.ring[v].epoch, s.ring[v].code)) else Back(v)))
    case (GenCheckEpoch, GSame(e, v, ep, snap)) =>
      v < RING && s' == s.(callers := With(s, t, if s.ring[v].epoch == ep then In(v, snap, Some(e)) else Back(v)))
    case (EnterBump, EBump(v)) =>
      v < RING && s' == s.(refs := s.refs[v := s.refs[v] + 1], callers := With(s, t, ECheck(v)))
    case (EnterCheck, ECheck(v)) =>
      && v < RING
      && s' == s.(callers := With(s, t,
           if s.ring[v].live then In(v, Snap(s.ring[v].epoch, s.ring[v].code), None) else Back(v)))
    case (BackOut, Back(v)) =>
      v < RING && s' == s.(refs := s.refs[v := s.refs[v] - 1], callers := With(s, t, Out))
    case (Leave, In(v, _, _)) =>
      v < RING && s' == s.(refs := s.refs[v := s.refs[v] - 1], callers := With(s, t, Out))
    case _ => false
  }

  // ----- runs

  ghost predicate Sized(s: State) {
    |s.ring| == RING && |s.refs| == RING && |s.pins| == PIN_SLOTS
  }

  ghost predicate Step(s: State, s': State, a: Action) {
    && Sized(s)
    && match a
       case ByPublisher(p) => PubPinStep(s, s', p) || PubScanStep(s, s', p) || PubRingStep(s, s', p)
       case ByCaller(t, c) =>
         && t in s.callers
         && (PinStep(s, s', t, c) || GenScanStep(s, s', t, c) || EnterScanStep(s, s', t, c) || RefStep(s, s', t, c))
  }

  /** After startup: the baseline is live at epoch 0 and the base epoch holds the current role's pin. */
  ghost predicate Init(s: State) {
    && Sized(s)
    && s.ring[0].live && !s.ring[0].staged && s.ring[0].epoch == 0 && s.ring[0].code == s.ring[0].want
    && (forall j :: 1 <= j < RING ==> !s.ring[j].live && !s.ring[j].staged)
    && s.refs == [0, 0, 0] && s.current == 0 && s.epoch == EPOCH_BASE
    && s.pins[0] == Pin(EPOCH_BASE, 1) && (forall j :: 1 <= j < PIN_SLOTS ==> s.pins[j].count == 0)
    && s.pub == PIdle
    && forall t <- s.callers :: s.callers[t] == Caller(None, Out)
  }

  ghost predicate Run(run: seq<State>, acts: seq<Action>) {
    && |run| == |acts| + 1
    && Init(run[0])
    && forall i :: 0 <= i < |acts| ==> Step(run[i], run[i + 1], acts[i])
  }
}
