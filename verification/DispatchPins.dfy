/** The epoch pin table under every interleaving: each count equals its holders, the current epoch
    is always pinned, and only a reservation brings an entry back from zero. */
module DispatchPins {
  import opened Wrappers
  import opened Dispatch

  /** The epoch on which the publisher itself holds a pin besides the current role's. */
  ghost function PubHolds(pub: Pub): Option<nat> {
    match pub
    case PIdle => None
    case PReserve(_, _) => None
    case PReserveCas(_, _, _) => None
    case PUnpin(e, _) => Some(e)
    case PUnpinCas(e, _, _) => Some(e)
    case _ => Some(pub.n)
  }

  /** Pins of epoch e that belong to a role: being current, or held by the publisher. */
  ghost function Role(s: State, e: nat): nat {
    (if e == s.epoch then 1 else 0) + (if PubHolds(s.pub) == Some(e) then 1 else 0)
  }

  ghost function Pinners(callers: map<Tid, Caller>, e: nat): set<Tid> {
    set t | t in callers && callers[t].pin.Some? && callers[t].pin.value.e == e
  }

  ghost predicate Holding(pins: seq<Pin>, i: int, e: nat) {
    0 <= i < |pins| && pins[i].epoch == e && pins[i].count > 0
  }

  ghost predicate Located(pins: seq<Pin>, e: nat) {
    exists i :: Holding(pins, i, e)
  }

  /** A scan for e that has passed the first i entries missed nothing. */
  ghost predicate NotBefore(pins: seq<Pin>, e: nat, i: nat) {
    forall j :: 0 <= j < i ==> !Holding(pins, j, e)
  }

  ghost predicate PubPinOk(s: State) {
    match s.pub
    case PIdle => true
    case PReserve(n, i) => n > s.epoch
    case PReserveCas(n, i, w) => n > s.epoch && w.count == 0
    case PUnpin(e, i) => e != s.epoch && NotBefore(s.pins, e, i)
    case PUnpinCas(e, i, w) => e != s.epoch && NotBefore(s.pins, e, i) && w.epoch == e && w.count > 0
    case _ => s.pub.n > s.epoch
  }

  /** A version held while pinning was not entered under the pin being taken. */
  ghost predicate Unmarked(home: Home) {
    home.Inside? ==> home.gen.None?
  }

  ghost predicate CallerPinOk(s: State, c: Caller) {
    && (c.pin.Some? ==> 1 <= c.pin.value.e <= s.epoch)
    && match c.pc
       case CPin(e, i, home) => c.pin.None? && 1 <= e <= s.epoch && Unmarked(home)
       case CPinCas(e, i, w, home) =>
         c.pin.None? && 1 <= e <= s.epoch && w.epoch == e && w.count > 0 && Unmarked(home)
       case CUnpin(e, i, _) => c.pin.Some? && c.pin.value.e == e && NotBefore(s.pins, e, i)
       case CUnpinCas(e, i, w, _) =>
         c.pin.Some? && c.pin.value.e == e && NotBefore(s.pins, e, i) && w.epoch == e && w.count > 0
       case _ => true
  }

  /** Conservation: an entry in use counts its pinning callers and roles, no epoch has two entries,
      and every held epoch has one. */
  ghost predicate CountsOk(s: State) {
    && (forall i, e :: Holding(s.pins, i, e) ==> s.pins[i].count == |Pinners(s.callers, e)| + Role(s, e))
    && (forall i, j, e :: Holding(s.pins, i, e) && Holding(s.pins, j, e) ==> i == j)
    && (forall e :: |Pinners(s.callers, e)| + Role(s, e) > 0 ==> Located(s.pins, e))
  }

  ghost predicate PinInv(s: State) {
    && Sized(s) && s.epoch >= 1
    && PubPinOk(s)
    && (forall t <- s.callers :: CallerPinOk(s, s.callers[t]))
    && CountsOk(s)
  }

  // ----- steps that leave the table alone

  lemma PinnersSame(c: map<Tid, Caller>, c': map<Tid, Caller>, e: nat)
    requires c.Keys == c'.Keys && forall t <- c :: c'[t].pin == c[t].pin
    ensures Pinners(c', e) == Pinners(c, e)
  {
  }

  ghost predicate TableSame(s: State, s': State) {
    && s'.pins == s.pins && s'.epoch == s.epoch && PubHolds(s'.pub) == PubHolds(s.pub)
    && s'.callers.Keys == s.callers.Keys
    && forall t <- s.callers :: s'.callers[t].pin == s.callers[t].pin
  }

  lemma CountsFrame(s: State, s': State)
    requires CountsOk(s) && TableSame(s, s')
    ensures CountsOk(s')
  {
    forall e
      ensures Pinners(s'.callers, e) == Pinners(s.callers, e)
    {
      PinnersSame(s.callers, s'.callers, e);
    }
  }

  ghost predicate PinPC(pc: PC) {
    pc.CPin? || pc.CPinCas? || pc.CUnpin? || pc.CUnpinCas?
  }

  /** Caller t moved its counter, to somewhere outside the pin and unpin loops. */
  ghost predicate MovesOnly(s: State, s': State, t: Tid) {
    && t in s.callers && t in s'.callers && !PinPC(s'.callers[t].pc)
    && s'.callers == s.callers[t := s.callers[t].(pc := s'.callers[t].pc)]
    && s'.pins == s.pins && s'.pub == s.pub && s'.epoch == s.epoch && Sized(s')
  }

  lemma CallMoves(s: State, s': State, t: Tid, a: CallAction)
    requires Sized(s) && t in s.callers
    requires GenScanStep(s, s', t, a) || EnterScanStep(s, s', t, a) || RefStep(s, s', t, a)
    ensures MovesOnly(s, s', t)
  {
  }

  /** Entering, leaving and scanning the ring do not concern the table. */
  lemma CallKeepsPins(s: State, s': State, t: Tid)
    requires PinInv(s) && MovesOnly(s, s', t)
    ensures PinInv(s')
  {
    CountsFrame(s, s');
    forall u | u in s'.callers
      ensures CallerPinOk(s', s'.callers[u])
    {
      assert CallerPinOk(s, s.callers[u]);
    }
  }

  lemma StageMoves(s: State, s': State, a: PubAction)
    requires Sized(s) && PubPinOk(s) && (PubScanStep(s, s', a) || PubRingStep(s, s', a))
    ensures Sized(s') && s'.callers == s.callers && TableSame(s, s') && PubPinOk(s')
  {
  }

  lemma StageKeepsPins(s: State, s': State, a: PubAction)
    requires PinInv(s) && (PubScanStep(s, s', a) || PubRingStep(s, s', a))
    ensures PinInv(s')
  {
    StageMoves(s, s', a);
    CountsFrame(s, s');
    CallersFrame(s, s');
  }

  lemma CallersFrame(s: State, s': State)
    requires s'.callers == s.callers && s.epoch <= s'.epoch
    requires NoRevival(s.pins, s'.pins)
    requires forall u <- s.callers :: CallerPinOk(s, s.callers[u])
    ensures forall u <- s'.callers :: CallerPinOk(s', s'.callers[u])
  {
  }

  // ----- a caller pins and unpins

  lemma PinnersGain(callers: map<Tid, Caller>, t: Tid, h: Hold, pc: PC, e: nat)
    requires t in callers && callers[t].pin.None?
    ensures |Pinners(callers[t := Caller(Some(h), pc)], e)| == |Pinners(callers, e)| + if h.e == e then 1 else 0
  {
    var after := callers[t := Caller(Some(h), pc)];
    if h.e == e {
      assert Pinners(after, e) == Pinners(callers, e) + {t};
    } else {
      assert Pinners(after, e) == Pinners(callers, e);
    }
  }

  lemma PinnersLose(callers: map<Tid, Caller>, t: Tid, pc: PC, e: nat)
    requires t in callers && callers[t].pin.Some?
    ensures |Pinners(callers[t := Caller(None, pc)], e)|
         == |Pinners(callers, e)| - if callers[t].pin.value.e == e then 1 else 0
  {
    var after := callers[t := Caller(None, pc)];
    if callers[t].pin.value.e == e {
      assert Pinners(callers, e) == Pinners(after, e) + {t};
    } else {
      assert Pinners(after, e) == Pinners(callers, e);
    }
  }

  /** Changing the count of entry i, which stays at its epoch and was in use. */
  lemma BumpCounts(s: State, s': State, i: nat, d: int)
    requires CountsOk(s) && i < |s.pins| && s.pins[i].count > 0 && s.pins[i].count + d >= 0
    requires s'.pins == s.pins[i := Pin(s.pins[i].epoch, s.pins[i].count + d)]
    requires forall e ::
               |Pinners(s'.callers, e)| + Role(s', e)
               == |Pinners(s.callers, e)| + Role(s, e) + if e == s.pins[i].epoch then d else 0
    ensures CountsOk(s')
  {
    var e0 := s.pins[i].epoch;
    assert Holding(s.pins, i, e0);
    forall j, e | Holding(s'.pins, j, e)
      ensures Holding(s.pins, j, e) && s'.pins[j].count == |Pinners(s'.callers, e)| + Role(s', e)
    {
      if j != i && e == e0 {
        assert Holding(s.pins, j, e0);
      }
    }
    forall e | |Pinners(s'.callers, e)| + Role(s', e) > 0
      ensures Located(s'.pins, e)
    {
      if e == e0 {
        assert Holding(s'.pins, i, e0);
      } else {
        var j :| Holding(s.pins, j, e);
        assert Holding(s'.pins, j, e);
      }
    }
  }

  lemma PinCasCounts(s: State, s': State, t: Tid)
    requires PinInv(s) && t in s.callers && PinStep(s, s', t, PinCas)
    ensures CountsOk(s')
  {
    assert CallerPinOk(s, s.callers[t]);
    var CPinCas(e, i, w, home) := s.callers[t].pc;
    if s.pins[i] == w {
      var h := Choose(s.ring, s.current, e);
      forall x
        ensures |Pinners(s'.callers, x)| == |Pinners(s.callers, x)| + if x == e then 1 else 0
      {
        PinnersGain(s.callers, t, h, Resume(home), x);
      }
      BumpCounts(s, s', i, 1);
    } else {
      CountsFrame(s, s');
    }
  }

  lemma UnpinCasCounts(s: State, s': State, t: Tid)
    requires PinInv(s) && t in s.callers && PinStep(s, s', t, CUnpinCasNow)
    ensures CountsOk(s')
  {
    assert CallerPinOk(s, s.callers[t]);
    var CUnpinCas(e, i, w, home) := s.callers[t].pc;
    if s.pins[i] == w {
      forall x
        ensures |Pinners(s'.callers, x)| == |Pinners(s.callers, x)| - if x == e then 1 else 0
      {
        PinnersLose(s.callers, t, Resume(home), x);
      }
      BumpCounts(s, s', i, -1);
    } else {
      CountsFrame(s, s');
    }
  }

  /** No compare-and-swap of a caller brings an entry into use. */
  ghost predicate NoRevival(pins: seq<Pin>, pins': seq<Pin>) {
    |pins'| == |pins| && forall j, e :: Holding(pins', j, e) ==> Holding(pins, j, e)
  }

  lemma CallersKept(s: State, s': State, t: Tid)
    requires forall u <- s.callers :: CallerPinOk(s, s.callers[u])
    requires NoRevival(s.pins, s'.pins) && s.epoch <= s'.epoch
    requires t in s'.callers && s'.callers.Keys == s.callers.Keys
    requires forall u <- s.callers :: u != t ==> s'.callers[u] == s.callers[u]
    requires CallerPinOk(s', s'.callers[t])
    ensures forall u <- s'.callers :: CallerPinOk(s', s'.callers[u])
  {
  }

  lemma PinStepRevivesNothing(s: State, s': State, t: Tid, a: CallAction)
    requires Sized(s) && t in s.callers && CallerPinOk(s, s.callers[t]) && PinStep(s, s', t, a)
    ensures NoRevival(s.pins, s'.pins)
  {
  }

  lemma PinStepMoves(s: State, s': State, t: Tid, a: CallAction)
    requires PinInv(s) && t in s.callers && PinStep(s, s', t, a)
    ensures Sized(s') && s'.pub == s.pub && s'.epoch == s.epoch && s'.callers.Keys == s.callers.Keys
    ensures forall u <- s.callers :: u != t ==> s'.callers[u] == s.callers[u]
    ensures s'.ring == s.ring && s'.callers == s.callers[t := s'.callers[t]]
    ensures !a.PinCas? && !a.CUnpinCasNow? ==> TableSame(s, s')
  {
    hide Scan, CountsOk, PubPinOk;
    assert CallerPinOk(s, s.callers[t]);
  }

  lemma PinStepCallerOk(s: State, s': State, t: Tid, a: CallAction)
    requires Sized(s) && t in s.callers && CallerPinOk(s, s.callers[t]) && PinStep(s, s', t, a)
    ensures t in s'.callers && CallerPinOk(s', s'.callers[t])
  {
    hide Scan;
  }

  lemma PinStepKeepsPins(s: State, s': State, t: Tid, a: CallAction)
    requires PinInv(s) && t in s.callers && PinStep(s, s', t, a)
    ensures PinInv(s') && NoRevival(s.pins, s'.pins)
  {
    PinStepRevivesNothing(s, s', t, a);
    PinStepMoves(s, s', t, a);
    PinStepCallerOk(s, s', t, a);
    CallersKept(s, s', t);
    if a.PinCas? {
      PinCasCounts(s, s', t);
    } else if a.CUnpinCasNow? {
      UnpinCasCounts(s, s', t);
    } else {
      CountsFrame(s, s');
    }
  }

  // ----- the publisher reserves, advances and unpins

  /** Nothing above the current epoch is in use except what the publisher holds. */
  lemma AboveCurrentFree(s: State, n: nat)
    requires PinInv(s) && n > s.epoch && PubHolds(s.pub) != Some(n)
    ensures !Located(s.pins, n) && Pinners(s.callers, n) == {}
  {
  }

  lemma ReserveKeepsPins(s: State, s': State)
    requires PinInv(s) && PubPinStep(s, s', ReserveCas)
    ensures PinInv(s')
  {
    var PReserveCas(n, i, w) := s.pub;
    if s.pins[i] == w {
      AboveCurrentFree(s, n);
      ReserveCounts(s, s', n, i);
    } else {
      CountsFrame(s, s');
    }
    forall u | u in s'.callers
      ensures CallerPinOk(s', s'.callers[u])
    {
      var c := s.callers[u];
      assert CallerPinOk(s, c);
      if c.pc.CUnpin? || c.pc.CUnpinCas? {
        forall j | 0 <= j < c.pc.i
          ensures !Holding(s'.pins, j, c.pc.e)
        {
          assert !Holding(s.pins, j, c.pc.e);
        }
      }
    }
  }

  lemma ReserveCounts(s: State, s': State, n: nat, i: nat)
    requires CountsOk(s) && i < |s.pins| && s.pins[i].count == 0 && n > s.epoch
    requires s' == s.(pins := s.pins[i := Pin(n, 1)], pub := PHave(n)) && PubHolds(s.pub) == None
    requires !Located(s.pins, n) && Pinners(s.callers, n) == {}
    ensures CountsOk(s')
  {
    forall j, e | Holding(s'.pins, j, e)
      ensures if j == i then e == n else Holding(s.pins, j, e) && e != n
    {
      if j != i { assert Holding(s.pins, j, e); }
    }
    forall e | |Pinners(s'.callers, e)| + Role(s', e) > 0
      ensures Located(s'.pins, e)
    {
      if e == n {
        assert Holding(s'.pins, i, n);
      } else {
        var j :| Holding(s.pins, j, e);
        assert Holding(s'.pins, j, e);
      }
    }
  }

  lemma PubUnpinKeepsPins(s: State, s': State)
    requires PinInv(s) && PubPinStep(s, s', UnpinCas)
    ensures PinInv(s')
  {
    var PUnpinCas(e, i, w) := s.pub;
    if s.pins[i] == w {
      BumpCounts(s, s', i, -1);
    } else {
      CountsFrame(s, s');
    }
    CallersFrame(s, s');
  }

  /** Advancing turns the reservation into the current role's pin and leaves the old role's pin to
      be dropped. */
  lemma AdvanceKeepsPins(s: State, s': State)
    requires PinInv(s) && PubPinStep(s, s', AdvanceNow)
    ensures PinInv(s')
  {
  }

  lemma PubPinKeepsPins(s: State, s': State, a: PubAction)
    requires PinInv(s) && PubPinStep(s, s', a)
    ensures PinInv(s')
  {
    if a.ReserveCas? {
      ReserveKeepsPins(s, s');
    } else if a.UnpinCas? {
      PubUnpinKeepsPins(s, s');
    } else if a.AdvanceNow? {
      AdvanceKeepsPins(s, s');
    } else {
      CountsFrame(s, s');
      CallersFrame(s, s');
    }
  }

  lemma StepKeepsPins(s: State, s': State, a: Action)
    requires PinInv(s) && Step(s, s', a)
    ensures PinInv(s')
  {
    match a {
      case ByPublisher(p) =>
        if PubPinStep(s, s', p) { PubPinKeepsPins(s, s', p); } else { StageKeepsPins(s, s', p); }
      case ByCaller(t, c) =>
        if PinStep(s, s', t, c) {
          PinStepKeepsPins(s, s', t, c);
        } else {
          CallMoves(s, s', t, c);
          CallKeepsPins(s, s', t);
        }
    }
  }

  lemma InitPins(s: State)
    requires Init(s)
    ensures PinInv(s)
  {
  }

  lemma {:induction false} RunKeepsPins(run: seq<State>, acts: seq<Action>, i: nat)
    requires Run(run, acts) && i < |run|
    ensures PinInv(run[i])
  {
    hide Step;
    if i == 0 {
      InitPins(run[0]);
    } else {
      RunKeepsPins(run, acts, i - 1);
      StepKeepsPins(run[i - 1], run[i], acts[i - 1]);
    }
  }

  // ----- theorems

  /** In every run the current epoch is pinned, every count equals its holders, and a pin held by a
      caller keeps its epoch in the table. */
  lemma PinsConserved(run: seq<State>, acts: seq<Action>, i: nat)
    requires Run(run, acts) && i < |run|
    ensures Located(run[i].pins, run[i].epoch)
    ensures forall j, e :: Holding(run[i].pins, j, e) ==>
              run[i].pins[j].count == |Pinners(run[i].callers, e)| + Role(run[i], e)
    ensures forall t <- run[i].callers :: run[i].callers[t].pin.Some? ==>
              Located(run[i].pins, run[i].callers[t].pin.value.e)
  {
    RunKeepsPins(run, acts, i);
    forall t | t in run[i].callers && run[i].callers[t].pin.Some?
      ensures Located(run[i].pins, run[i].callers[t].pin.value.e)
    {
      assert t in Pinners(run[i].callers, run[i].callers[t].pin.value.e);
    }
  }

  /** An epoch out of use comes back only through the publisher's reservation, and then it lies
      above the current epoch. */
  lemma OnlyReserveRevives(run: seq<State>, acts: seq<Action>, i: nat, e: nat)
    requires Run(run, acts) && i < |acts|
    requires !Located(run[i].pins, e) && Located(run[i + 1].pins, e)
    ensures acts[i] == ByPublisher(ReserveCas) && e > run[i].epoch
  {
    hide PinInv, Located, Step;
    RunKeepsPins(run, acts, i);
    assert Step(run[i], run[i + 1], acts[i]);
    StepRevives(run[i], run[i + 1], acts[i], e);
  }

  lemma PubRevivesNothing(s: State, s': State, a: PubAction)
    requires Sized(s) && PubPinOk(s) && PubPinStep(s, s', a) && a != ReserveCas
    ensures NoRevival(s.pins, s'.pins)
  {
  }

  lemma ReserveAbove(s: State, s': State, e: nat)
    requires Sized(s) && PubPinOk(s) && PubPinStep(s, s', ReserveCas)
    requires !Located(s.pins, e) && Located(s'.pins, e)
    ensures e > s.epoch
  {
    var j :| Holding(s'.pins, j, e);
    assert !Holding(s.pins, j, e);
  }

  lemma RevivalMeans(pins: seq<Pin>, pins': seq<Pin>, e: nat)
    requires NoRevival(pins, pins') && Located(pins', e)
    ensures Located(pins, e)
  {
    var j :| Holding(pins', j, e);
    assert Holding(pins, j, e);
  }

  lemma StepRevives(s: State, s': State, a: Action, e: nat)
    requires PinInv(s) && Step(s, s', a) && !Located(s.pins, e) && Located(s'.pins, e)
    ensures a == ByPublisher(ReserveCas) && e > s.epoch
  {
    hide Located, NoRevival, CountsOk, PinStep, GenScanStep, EnterScanStep, RefStep;
    hide PubPinStep, PubScanStep, PubRingStep;
    if a.ByCaller? {
      if PinStep(s, s', a.t, a.c) {
        PinStepKeepsPins(s, s', a.t, a.c);
        RevivalMeans(s.pins, s'.pins, e);
      } else {
        CallMoves(s, s', a.t, a.c);
      }
    } else if PubPinStep(s, s', a.p) {
      if a.p == ReserveCas {
        ReserveAbove(s, s', e);
      } else {
        PubRevivesNothing(s, s', a.p);
        RevivalMeans(s.pins, s'.pins, e);
      }
    } else {
      StageMoves(s, s', a.p);
    }
  }

  /** An unpin never runs off the end of the table: the "unpinned more times than pinned" branch is
      unreachable. */
  lemma UnpinAlwaysFinds(run: seq<State>, acts: seq<Action>, i: nat, t: Tid)
    requires Run(run, acts) && i < |run| && t in run[i].callers
    ensures run[i].callers[t].pc.CUnpin? ==> run[i].callers[t].pc.i < PIN_SLOTS
    ensures run[i].pub.PUnpin? ==> run[i].pub.i < PIN_SLOTS
  {
    RunKeepsPins(run, acts, i);
    var s := run[i];
    var c := s.callers[t];
    assert CallerPinOk(s, c);
    if c.pc.CUnpin? {
      assert t in Pinners(s.callers, c.pc.e);
      var j :| Holding(s.pins, j, c.pc.e);
    }
    if s.pub.PUnpin? {
      assert Role(s, s.pub.e) > 0;
      var j :| Holding(s.pins, j, s.pub.e);
    }
  }
}
