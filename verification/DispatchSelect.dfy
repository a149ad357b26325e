/** Stable selection: while a caller holds a pin on an epoch at or below the current one, the
    version that epoch selects is the same at every step, and enter_gen returns it although its
    scan interleaves with staging, commits and reclamation. */
module DispatchSelect {
  import opened Wrappers
  import opened Dispatch
  import opened DispatchPins
  import opened DispatchRing

  ghost predicate Distinct(ring: seq<Version>)
    requires |ring| == RING
  {
    forall i, j :: 0 <= i < RING && 0 <= j < RING && i != j && ring[i].live && ring[j].live ==>
      ring[i].epoch != ring[j].epoch
  }

  ghost predicate Served(ring: seq<Version>, e: nat)
    requires |ring| == RING
  {
    exists j :: Usable(ring, e, j)
  }

  // ----- what the scan, the reclaim condition and selection have to do with each other

  lemma {:induction false} ScanPrefix(ring: seq<Version>, cur: nat, e: nat, n: nat)
    requires |ring| == RING && n <= RING && Distinct(ring)
    ensures var b := Scan(ring, cur, e, n);
            && (b < 0 ==> b == -1 && forall j :: j < n ==> !Usable(ring, e, j))
            && (b >= 0 ==> b < n && Usable(ring, e, b))
            && (b >= 0 ==> forall j :: j < n && j != b && Usable(ring, e, j) ==> ring[j].epoch < ring[b].epoch)
  {
    if n > 0 {
      ScanPrefix(ring, cur, e, n - 1);
    }
  }

  /** On a ring that does not move, enter_gen's scan finds the selected version. */
  lemma ScanSelects(ring: seq<Version>, cur: nat, e: nat)
    requires |ring| == RING && Distinct(ring) && Served(ring, e)
    ensures Selected(ring, e, Scan(ring, cur, e, RING))
  {
    ScanPrefix(ring, cur, e, RING);
  }

  lemma {:induction false} NextNewerMeaning(ring: seq<Version>, i: nat, n: nat, e: nat)
    requires |ring| == RING && i < RING && n <= RING
    ensures NextNewer(ring, i, n).Admits(e) <==>
              forall j :: 0 <= j < n && j != i && ring[j].live && ring[j].epoch > ring[i].epoch ==> e < ring[j].epoch
  {
    if n > 0 {
      NextNewerMeaning(ring, i, n - 1, e);
      var best := NextNewer(ring, i, n - 1);
      if best.Below? {
        NextNewerMeaning(ring, i, n - 1, best.n);
      }
    }
  }

  /** The reclaim condition's interval is exactly the epochs that select the version. */
  lemma ReachIsSelection(ring: seq<Version>, i: nat, e: nat)
    requires |ring| == RING && i < RING && ring[i].live && Distinct(ring)
    ensures InReach(ring, i, e) <==> Selected(ring, e, i)
  {
    NextNewerMeaning(ring, i, RING, e);
  }

  // ----- invariant

  /** No live version is newer than this. */
  ghost function Newest(s: State): nat {
    if s.pub.PCurrent? || s.pub.PAdvance? then s.pub.n else s.epoch
  }

  /** None of the first k entries holds an epoch that selects version i. */
  ghost predicate Unreached(s: State, i: int, k: nat)
    requires |s.ring| == RING
  {
    0 <= i < RING && forall j, e :: j < k && Holding(s.pins, j, e) ==> !InReach(s.ring, i, e)
  }

  ghost predicate PubSelOk(s: State)
    requires |s.ring| == RING
  {
    match s.pub
    case PRecl(n, i, best) => best < 0 || Unreached(s, best, PIN_SLOTS)
    case PKeepScan(n, i, best, k) => best < 0 || Unreached(s, best, PIN_SLOTS)
    case PPinScan(n, i, best, k) => (best < 0 || Unreached(s, best, PIN_SLOTS)) && Unreached(s, i, k)
    case PRetire(n, v) => Unreached(s, v, PIN_SLOTS)
    case _ => true
  }

  ghost predicate RingSelOk(s: State)
    requires |s.ring| == RING
  {
    && Distinct(s.ring)
    && (forall j :: 0 <= j < RING && s.ring[j].live ==> s.ring[j].epoch <= Newest(s))
    && (forall i, e :: Holding(s.pins, i, e) ==> Served(s.ring, e))
  }

  /** The scan of a caller whose pinned epoch selects h.sel. */
  ghost predicate ScanningOk(ring: seq<Version>, h: Hold, pc: PC)
    requires |ring| == RING && 0 <= h.sel < RING
  {
    match pc
    case GScan(e, _, i, best, ep) =>
      if h.sel < i then best == h.sel && ep == ring[h.sel].epoch else best < 0 || ep < ring[h.sel].epoch
    case GEpoch(e, _, i, best, ep) =>
      && (if h.sel < i then best == h.sel && ep == ring[h.sel].epoch else best < 0 || ep < ring[h.sel].epoch)
      && i < RING && (i == h.sel || ring[i].epoch > e || ring[i].epoch < ring[h.sel].epoch)
    case GNone(e) => false
    case GBump(e, v, ep) => v == h.sel && ep == ring[h.sel].epoch
    case GLive(e, v, ep) => v == h.sel && ep == ring[h.sel].epoch
    case GSame(e, v, ep, snap) => v == h.sel && ep == ring[h.sel].epoch && snap == h.snap
    case In(v, snap, gen) => v == h.sel && snap == h.snap
    case _ => true
  }

  /** The epoch a caller's enter_gen is resolving, if it is inside one. */
  ghost function GenEpochOf(pc: PC): Option<nat> {
    match pc
    case GScan(e, _, _, _, _) => Some(e)
    case GEpoch(e, _, _, _, _) => Some(e)
    case GNone(e) => Some(e)
    case GBump(e, _, _) => Some(e)
    case GLive(e, _, _) => Some(e)
    case GSame(e, _, _, _) => Some(e)
    case In(_, _, gen) => gen
    case _ => None
  }

  ghost predicate HoldSelOk(ring: seq<Version>, h: Hold)
    requires |ring| == RING
  {
    Selected(ring, h.e, h.sel) && h.snap == Snap(ring[h.sel].epoch, ring[h.sel].code)
  }

  ghost predicate CallerSelOk(ring: seq<Version>, c: Caller)
    requires |ring| == RING
  {
    c.pin.Some? ==>
      && HoldSelOk(ring, c.pin.value)
      && (GenEpochOf(c.pc) == Some(c.pin.value.e) ==> ScanningOk(ring, c.pin.value, c.pc))
  }

  ghost predicate SelInv(s: State) {
    && |s.ring| == RING && RingSelOk(s) && PubSelOk(s)
    && forall t <- s.callers :: CallerSelOk(s.ring, s.callers[t])
  }

  ghost predicate Inv(s: State) {
    PinInv(s) && RingInv(s) && SelInv(s)
  }

  // ----- caller steps

  lemma GenStepKeepsCaller(s: State, s': State, t: Tid, a: CallAction)
    requires RingInv(s) && SelInv(s) && t in s.callers && GenScanStep(s, s', t, a)
    ensures s'.ring == s.ring && t in s'.callers && CallerSelOk(s.ring, s'.callers[t])
  {
    hide RefsOk, RingOk, PubSelOk;
    assert CallerSelOk(s.ring, s.callers[t]) && CallerRingOk(s, s.callers[t].pc);
  }

  lemma RefStepKeepsCaller(s: State, s': State, t: Tid, a: CallAction)
    requires RingInv(s) && SelInv(s) && t in s.callers && RefStep(s, s', t, a)
    ensures s'.ring == s.ring && t in s'.callers && CallerSelOk(s.ring, s'.callers[t])
  {
    hide RefsOk, RingOk, RingSelOk, PubSelOk, Selected;
    assert CallerSelOk(s.ring, s.callers[t]) && CallerRingOk(s, s.callers[t].pc);
  }

  lemma EnterScanKeepsCaller(s: State, s': State, t: Tid, a: CallAction)
    requires SelInv(s) && t in s.callers && EnterScanStep(s, s', t, a)
    ensures s'.ring == s.ring && t in s'.callers && CallerSelOk(s.ring, s'.callers[t])
  {
    hide RingSelOk, PubSelOk, Selected;
    assert CallerSelOk(s.ring, s.callers[t]);
  }

  /** The pin records the version its epoch selects: an epoch in the table is served. */
  lemma PinStepKeepsCaller(s: State, s': State, t: Tid, a: CallAction)
    requires Inv(s) && t in s.callers && PinStep(s, s', t, a)
    ensures s'.ring == s.ring && t in s'.callers && CallerSelOk(s.ring, s'.callers[t])
  {
    var c := s.callers[t];
    assert CallerSelOk(s.ring, c) && CallerPinOk(s, c);
    if a.PinCas? && s.pins[c.pc.i] == c.pc.w {
      assert Holding(s.pins, c.pc.i, c.pc.e);
      ScanSelects(s.ring, s.current, c.pc.e);
    }
  }

  lemma CallerStepFrame(s: State, s': State, t: Tid)
    requires SelInv(s) && s'.ring == s.ring && s'.pub == s.pub && s'.epoch == s.epoch && NoRevival(s.pins, s'.pins)
    requires t in s.callers && t in s'.callers && s'.callers == s.callers[t := s'.callers[t]]
    requires CallerSelOk(s.ring, s'.callers[t])
    ensures SelInv(s')
  {
  }

  lemma CallerStepKeepsSel(s: State, s': State, t: Tid, a: CallAction)
    requires Inv(s) && Step(s, s', ByCaller(t, a))
    ensures SelInv(s')
  {
    hide PinInv, RingInv, SelInv, CallerSelOk, PinStep, GenScanStep, EnterScanStep, RefStep;
    PinInvSized(s);
    if PinStep(s, s', t, a) {
      PinStepKeepsPins(s, s', t, a);
      PinStepMoves(s, s', t, a);
      PinStepKeepsCaller(s, s', t, a);
    } else {
      CallMoves(s, s', t, a);
      SameRevivesNothing(s.pins);
      if GenScanStep(s, s', t, a) {
        GenStepKeepsCaller(s, s', t, a);
      } else if RefStep(s, s', t, a) {
        RefStepKeepsCaller(s, s', t, a);
      } else {
        EnterScanKeepsCaller(s, s', t, a);
      }
    }
    CallerStepFrame(s, s', t);
  }

  lemma PinInvSized(s: State)
    requires PinInv(s)
    ensures Sized(s)
  {
  }

  lemma SameRevivesNothing(pins: seq<Pin>)
    ensures NoRevival(pins, pins)
  {
  }

  // ----- publisher steps

  lemma PubPinKeepsSel(s: State, s': State, a: PubAction)
    requires Inv(s) && PubPinStep(s, s', a)
    ensures SelInv(s')
  {
    PubPinMoves(s, s', a);
    forall i, e | Holding(s'.pins, i, e)
      ensures Served(s'.ring, e)
    {
      if Holding(s.pins, i, e) {
      } else {
        assert Usable(s.ring, e, s.current);
      }
    }
  }

  /** What the scans of pick_ring_slot establish: the chosen version is selected by no pinned
      epoch.  Equal epochs never occur, so the tie-break is idle. */
  lemma PubScanKeepsSel(s: State, s': State, a: PubAction)
    requires Inv(s) && PubScanStep(s, s', a)
    ensures |s'.ring| == RING && PubSelOk(s')
  {
    assert forall i :: 0 <= i < RING && s.ring[i].live ==> !Shadowed(s.ring, i, s.current);
  }

  ghost predicate SameSelection(ring: seq<Version>, ring': seq<Version>)
    requires |ring| == RING
  {
    && |ring'| == RING
    && (forall j :: 0 <= j < RING ==> ring'[j].live == ring[j].live && ring'[j].epoch == ring[j].epoch)
    && (forall j :: 0 <= j < RING && ring[j].live ==> ring'[j].code == ring[j].code)
  }

  lemma SelectionFrame(s: State, s': State)
    requires SelInv(s) && SameSelection(s.ring, s'.ring)
    requires s'.callers == s.callers && s'.pins == s.pins && Newest(s') >= Newest(s)
    ensures |s'.ring| == RING && RingSelOk(s') && forall t <- s'.callers :: CallerSelOk(s'.ring, s'.callers[t])
  {
    forall i, e | Holding(s'.pins, i, e)
      ensures Served(s'.ring, e)
    {
      var j :| Usable(s.ring, e, j);
      assert Usable(s'.ring, e, j);
    }
    forall t | t in s'.callers
      ensures CallerSelOk(s'.ring, s'.callers[t])
    {
      assert CallerSelOk(s.ring, s.callers[t]);
      if s.callers[t].pin.Some? {
        var h := s.callers[t].pin.value;
        forall j | j != h.sel && Usable(s'.ring, h.e, j)
          ensures s'.ring[j].epoch < s'.ring[h.sel].epoch
        {
          assert Usable(s.ring, h.e, j);
        }
      }
    }
  }

  /** Retiring a version that no pinned epoch selects changes nothing for any pinned epoch. */
  lemma RetireKeepsSel(s: State, s': State)
    requires Inv(s) && PubRingStep(s, s', RetireStore)
    ensures SelInv(s')
  {
    var v := s.pub.v;
    forall i, e | Holding(s.pins, i, e)
      ensures Served(s'.ring, e)
    {
      ScanSelects(s.ring, s.current, e);
      ReachIsSelection(s.ring, v, e);
      assert Usable(s'.ring, e, Scan(s.ring, s.current, e, RING));
    }
    forall t | t in s'.callers
      ensures CallerSelOk(s'.ring, s'.callers[t])
    {
      RetireKeepsCaller(s, s', t);
    }
  }

  lemma RetireKeepsCaller(s: State, s': State, t: Tid)
    requires Inv(s) && PubRingStep(s, s', RetireStore) && t in s.callers
    ensures CallerSelOk(s'.ring, s.callers[t])
  {
    var c := s.callers[t];
    assert CallerSelOk(s.ring, c);
    if c.pin.Some? {
      var h := c.pin.value;
      assert t in Pinners(s.callers, h.e);
      assert Located(s.pins, h.e);
      ReachIsSelection(s.ring, s.pub.v, h.e);
      forall j | j != h.sel && Usable(s'.ring, h.e, j)
        ensures s'.ring[j].epoch < s'.ring[h.sel].epoch
      {
        assert Usable(s.ring, h.e, j);
      }
    }
  }

  /** Writing the new epoch into a version that is not live, or making that version live, adds
      nothing at or below the current epoch. */
  lemma NewerKeepsCaller(s: State, s': State, t: Tid, v: nat)
    requires Inv(s) && t in s.callers && v < RING && !s.ring[v].live
    requires |s'.ring| == RING && s'.ring[v].epoch > s.epoch
    requires forall j :: 0 <= j < RING && j != v ==> s'.ring[j] == s.ring[j]
    ensures CallerSelOk(s'.ring, s.callers[t])
  {
  }

  lemma NewerKeepsServed(s: State, s': State, v: nat)
    requires Inv(s) && v < RING && !s.ring[v].live && |s'.ring| == RING && s'.pins == s.pins
    requires forall j :: 0 <= j < RING && j != v ==> s'.ring[j] == s.ring[j]
    ensures forall i, e :: Holding(s'.pins, i, e) ==> Served(s'.ring, e)
  {
    forall i, e | Holding(s'.pins, i, e)
      ensures Served(s'.ring, e)
    {
      var j :| Usable(s.ring, e, j);
      assert Usable(s'.ring, e, j);
    }
  }

  lemma WriteEpochKeepsSel(s: State, s': State)
    requires Inv(s) && PubRingStep(s, s', WriteField) && s.pub.PWrite? && s.pub.phase >= 4
    ensures SelInv(s')
  {
    NewerKeepsServed(s, s', s.pub.v);
    forall t | t in s'.callers
      ensures CallerSelOk(s'.ring, s'.callers[t])
    {
      NewerKeepsCaller(s, s', t, s.pub.v);
    }
  }

  lemma CommitLiveKeepsSel(s: State, s': State)
    requires Inv(s) && PubRingStep(s, s', CommitLive)
    ensures SelInv(s')
  {
    NewerKeepsServed(s, s', s.pub.v);
    forall t | t in s'.callers
      ensures CallerSelOk(s'.ring, s'.callers[t])
    {
      NewerKeepsCaller(s, s', t, s.pub.v);
    }
  }

  ghost predicate Publishes(s: State, a: PubAction) {
    a.RetireStore? || a.CommitLive? || (a.WriteField? && s.pub.PWrite? && s.pub.phase >= 4)
  }

  lemma QuietStep(s: State, s': State, a: PubAction)
    requires RingInv(s) && (PubScanStep(s, s', a) || PubRingStep(s, s', a)) && !Publishes(s, a)
    ensures SameSelection(s.ring, s'.ring) && s'.callers == s.callers && s'.pins == s.pins && Newest(s') >= Newest(s)
  {
    if PubScanStep(s, s', a) { QuietScan(s, s', a); } else { QuietRing(s, s', a); }
  }

  lemma QuietScan(s: State, s': State, a: PubAction)
    requires Sized(s) && PubScanStep(s, s', a)
    ensures SameSelection(s.ring, s'.ring) && s'.callers == s.callers && s'.pins == s.pins && Newest(s') >= Newest(s)
  {
  }

  lemma QuietRing(s: State, s': State, a: PubAction)
    requires RingInv(s) && PubRingStep(s, s', a) && !Publishes(s, a)
    ensures SameSelection(s.ring, s'.ring) && s'.callers == s.callers && s'.pins == s.pins && Newest(s') >= Newest(s)
  {
  }

  lemma QuietRingPub(s: State, s': State, a: PubAction)
    requires SelInv(s) && RingInv(s) && PubRingStep(s, s', a) && !Publishes(s, a)
    ensures |s'.ring| == RING && PubSelOk(s')
  {
  }

  lemma PubStepKeepsSel(s: State, s': State, a: PubAction)
    requires Inv(s) && Step(s, s', ByPublisher(a))
    ensures SelInv(s')
  {
    if PubPinStep(s, s', a) {
      PubPinKeepsSel(s, s', a);
    } else if !Publishes(s, a) {
      QuietStep(s, s', a);
      SelectionFrame(s, s');
      if PubScanStep(s, s', a) { PubScanKeepsSel(s, s', a); } else { QuietRingPub(s, s', a); }
    } else if a.RetireStore? {
      RetireKeepsSel(s, s');
    } else if a.CommitLive? {
      CommitLiveKeepsSel(s, s');
    } else {
      WriteEpochKeepsSel(s, s');
    }
  }

  lemma StepKeepsInv(s: State, s': State, a: Action)
    requires Inv(s) && Step(s, s', a)
    ensures Inv(s')
  {
    StepKeepsPins(s, s', a);
    StepKeepsRing(s, s', a);
    if a.ByPublisher? { PubStepKeepsSel(s, s', a.p); } else { CallerStepKeepsSel(s, s', a.t, a.c); }
  }

  lemma InitInv(s: State)
    requires Init(s)
    ensures Inv(s)
  {
    InitPins(s);
    InitRing(s);
    forall i, e | Holding(s.pins, i, e)
      ensures Served(s.ring, e)
    {
      assert Usable(s.ring, e, 0);
    }
  }

  lemma {:induction false} RunKeepsInv(run: seq<State>, acts: seq<Action>, i: nat)
    requires Run(run, acts) && i < |run|
    ensures Inv(run[i])
  {
    hide Step;
    if i == 0 {
      InitInv(run[0]);
    } else {
      RunKeepsInv(run, acts, i - 1);
      StepKeepsInv(run[i - 1], run[i], acts[i - 1]);
    }
  }

  // ----- theorems

  /** A caller's pin record is written when it pins and erased when it unpins, never replaced. */
  lemma PinRecordKept(s: State, s': State, a: Action, t: Tid)
    requires PinInv(s) && Step(s, s', a) && t in s.callers && s.callers[t].pin.Some?
    ensures t in s'.callers && (s'.callers[t].pin == s.callers[t].pin || s'.callers[t].pin == None)
  {
    if a.ByPublisher? {
      if PubPinStep(s, s', a.p) { PubPinMoves(s, s', a.p); } else { StageMoves(s, s', a.p); }
    } else if PinStep(s, s', a.t, a.c) {
      PinStepKeepsRecord(s, s', a.t, a.c, t);
    } else {
      CallMoves(s, s', a.t, a.c);
    }
  }

  lemma PinStepKeepsRecord(s: State, s': State, u: Tid, a: CallAction, t: Tid)
    requires PinInv(s) && u in s.callers && PinStep(s, s', u, a) && t in s.callers && s.callers[t].pin.Some?
    ensures t in s'.callers && (s'.callers[t].pin == s.callers[t].pin || s'.callers[t].pin == None)
  {
  }

  /** While t stays pinned, its epoch selects the same version, with the same epoch and code. */
  lemma {:induction false} PinnedSelectionStable(run: seq<State>, acts: seq<Action>, i: nat, j: nat, t: Tid)
    requires Run(run, acts) && i <= j < |run|
    requires forall k :: i <= k <= j ==> t in run[k].callers && run[k].callers[t].pin.Some?
    ensures run[j].callers[t].pin == run[i].callers[t].pin
    ensures var h := run[i].callers[t].pin.value;
            && |run[i].ring| == |run[j].ring| == RING
            && Selected(run[i].ring, h.e, h.sel) && Selected(run[j].ring, h.e, h.sel)
            && run[j].ring[h.sel].epoch == run[i].ring[h.sel].epoch
            && run[j].ring[h.sel].code == run[i].ring[h.sel].code
    decreases j
  {
    hide Step;
    RunKeepsInv(run, acts, j);
    assert CallerSelOk(run[j].ring, run[j].callers[t]);
    if i < j {
      PinnedSelectionStable(run, acts, i, j - 1, t);
      RunKeepsInv(run, acts, j - 1);
      assert Step(run[j - 1], run[j], acts[j - 1]);
      PinRecordKept(run[j - 1], run[j], acts[j - 1], t);
    }
  }

  /** enter_gen of a pinned epoch holds exactly the version that epoch selected when it was pinned
      and selects now: the live version with the largest epoch at or below it. */
  lemma EnterGenReturnsSelected(run: seq<State>, acts: seq<Action>, i: nat, t: Tid)
    requires Run(run, acts) && i < |run| && t in run[i].callers
    requires run[i].callers[t].pc.In? && run[i].callers[t].pin.Some?
    requires run[i].callers[t].pc.gen == Some(run[i].callers[t].pin.value.e)
    ensures var h := run[i].callers[t].pin.value;
            && |run[i].ring| == RING
            && run[i].callers[t].pc.v == h.sel && run[i].callers[t].pc.snap == h.snap
            && Selected(run[i].ring, h.e, h.sel)
  {
    RunKeepsInv(run, acts, i);
    assert CallerSelOk(run[i].ring, run[i].callers[t]);
  }

  lemma PinnedGenSucceeds(s: State, s': State, t: Tid, a: CallAction)
    requires Inv(s) && t in s.callers && s.callers[t].pin.Some?
    requires GenEpochOf(s.callers[t].pc) == Some(s.callers[t].pin.value.e)
    requires GenScanStep(s, s', t, a) || RefStep(s, s', t, a)
    ensures t in s'.callers
    ensures a.GenDone? ==> s'.callers[t].pc.GBump?
    ensures a.GenCheckLive? ==> s'.callers[t].pc.GSame?
    ensures a.GenCheckEpoch? ==> s'.callers[t].pc.In?
  {
  }

  /** enter_gen of a pinned epoch never fails: its scan finds a version, and both re-checks pass. */
  lemma EnterGenNeverFails(run: seq<State>, acts: seq<Action>, i: nat, t: Tid, a: CallAction)
    requires Run(run, acts) && i < |acts| && t in run[i].callers && run[i].callers[t].pin.Some?
    requires GenEpochOf(run[i].callers[t].pc) == Some(run[i].callers[t].pin.value.e)
    requires acts[i] == ByCaller(t, a) && (a.GenDone? || a.GenCheckLive? || a.GenCheckEpoch?)
    ensures t in run[i + 1].callers
    ensures a.GenDone? ==> run[i + 1].callers[t].pc.GBump?
    ensures a.GenCheckLive? ==> run[i + 1].callers[t].pc.GSame?
    ensures a.GenCheckEpoch? ==> run[i + 1].callers[t].pc.In?
  {
    RunKeepsInv(run, acts, i);
    assert Step(run[i], run[i + 1], acts[i]);
    PinnedGenSucceeds(run[i], run[i + 1], t, a);
  }

  /** Why the pinned epoch must not be above the current one: a commit at epoch n moves the
      selection of e if and only if e is at or above n. */
  lemma CommitMovesSelection(s: State, s': State, e: nat, i: int, i': int)
    requires Inv(s) && PubRingStep(s, s', CommitLive)
    requires Selected(s.ring, e, i) && |s'.ring| == RING && Selected(s'.ring, e, i')
    ensures i != i' <==> e >= s.pub.n
  {
    var n, v := s.pub.n, s.pub.v;
    if e >= n {
      assert Usable(s'.ring, e, v);
      assert Usable(s'.ring, e, i);
    } else {
      assert Usable(s'.ring, e, i) && Usable(s.ring, e, i');
    }
  }
}
