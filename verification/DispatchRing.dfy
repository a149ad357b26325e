/** The Dekker pair between callers (pin, then re-check live) and the publisher (retire, then
    re-check refs): a validated version is complete and never rewritten under its caller. */
module DispatchRing {
  import opened Wrappers
  import opened Dispatch

  /** Callers between the increment and the decrement of v's reference count. */
  ghost predicate Bumped(pc: PC, v: nat) {
    match pc
    case GLive(_, w, _) => w == v
    case GSame(_, w, _, _) => w == v
    case ECheck(w) => w == v
    case Back(w) => w == v
    case In(w, _, _) => w == v
    case CPin(_, _, home) => AtHome(home, v)
    case CPinCas(_, _, _, home) => AtHome(home, v)
    case CUnpin(_, _, home) => AtHome(home, v)
    case CUnpinCas(_, _, _, home) => AtHome(home, v)
    case _ => false
  }

  ghost predicate AtHome(home: Home, v: nat) {
    home.Inside? && home.v == v
  }

  ghost function Holders(callers: map<Tid, Caller>, v: nat): set<Tid> {
    set t | t in callers && Bumped(callers[t].pc, v)
  }

  ghost predicate RefsOk(s: State) {
    |s.refs| == RING && forall v :: 0 <= v < RING ==> s.refs[v] == |Holders(s.callers, v)|
  }

  /** The publisher owns v's fields: it may be writing them. */
  ghost predicate Rewriting(pub: Pub, v: nat) {
    (pub.PWrite? || pub.PStaged? || pub.PCommit?) && pub.v == v
  }

  ghost predicate Victim(s: State, v: int)
    requires |s.ring| == RING
  {
    0 <= v < RING && v != s.current && s.ring[v].live
  }

  ghost predicate PubRingOk(s: State)
    requires |s.ring| == RING
  {
    match s.pub
    case PRecl(n, i, best) => best < 0 || Victim(s, best)
    case PKeepScan(n, i, best, k) => Victim(s, i) && (best < 0 || Victim(s, best))
    case PPinScan(n, i, best, k) => Victim(s, i) && (best < 0 || Victim(s, best))
    case PRetire(n, v) => Victim(s, v)
    case PRecheck(n, v) => v < RING && v != s.current && !s.ring[v].live
    case PWrite(n, v, c, ph) =>
      && v < RING && v != s.current && !s.ring[v].live && s.ring[v].want == c && ph <= 4
      && (ph > 0 ==> s.ring[v].code.fn == c.fn) && (ph > 1 ==> s.ring[v].code.kind == c.kind)
      && (ph > 2 ==> s.ring[v].code.impl == c.impl) && (ph > 3 ==> s.ring[v].code.sig == c.sig)
    case PStaged(n, v) =>
      v < RING && v != s.current && !s.ring[v].live && s.ring[v].code == s.ring[v].want && s.ring[v].epoch == n
    case PCommit(n, v) =>
      v < RING && v != s.current && !s.ring[v].live && s.ring[v].code == s.ring[v].want && s.ring[v].epoch == n
    case PCurrent(n, v) => v < RING && s.ring[v].live && s.ring[v].epoch == n
    case _ => true
  }

  /** A caller past re-validation sees a complete version, unchanged since. */
  ghost predicate Intact(s: State, v: nat, snap: Snap)
    requires |s.ring| == RING
  {
    && v < RING && snap == Snap(s.ring[v].epoch, s.ring[v].code)
    && s.ring[v].code == s.ring[v].want && !Rewriting(s.pub, v)
  }

  ghost predicate CallerRingOk(s: State, pc: PC)
    requires |s.ring| == RING
  {
    match pc
    case GScan(e, _, _, best, ep) => best < RING && (best >= 0 ==> ep <= e)
    case GEpoch(e, _, i, best, ep) => i < RING && best < RING && (best >= 0 ==> ep <= e)
    case GBump(e, v, ep) => v < RING && ep <= e
    case GLive(e, v, ep) => v < RING && ep <= e
    case GSame(e, v, ep, snap) => ep <= e && Intact(s, v, snap)
    case ELive(v) => v < RING
    case EBump(v) => v < RING
    case ECheck(v) => v < RING
    case Back(v) => v < RING
    case In(v, snap, gen) => HeldIntact(s, v, snap, gen)
    case CPin(_, _, home) => HomeIntact(s, home)
    case CPinCas(_, _, _, home) => HomeIntact(s, home)
    case CUnpin(_, _, home) => HomeIntact(s, home)
    case CUnpinCas(_, _, _, home) => HomeIntact(s, home)
    case _ => true
  }

  ghost predicate HeldIntact(s: State, v: nat, snap: Snap, gen: Option<nat>)
    requires |s.ring| == RING
  {
    Intact(s, v, snap) && (gen.Some? ==> snap.epoch <= gen.value)
  }

  ghost predicate HomeIntact(s: State, home: Home)
    requires |s.ring| == RING
  {
    home.Inside? ==> HeldIntact(s, home.v, home.snap, home.gen)
  }

  /** The version a caller has validated and not yet left. */
  ghost function Validated(pc: PC): Home {
    match pc
    case In(v, snap, gen) => Inside(v, snap, gen)
    case CPin(_, _, home) => home
    case CPinCas(_, _, _, home) => home
    case CUnpin(_, _, home) => home
    case CUnpinCas(_, _, _, home) => home
    case _ => Away
  }

  ghost predicate RingOk(s: State) {
    && |s.ring| == RING && s.current < RING && s.ring[s.current].live
    && (forall j :: 0 <= j < RING && s.ring[j].live ==> s.ring[j].code == s.ring[j].want)
    && PubRingOk(s)
  }

  ghost predicate RingInv(s: State) {
    && Sized(s) && RingOk(s) && RefsOk(s)
    && forall t <- s.callers :: CallerRingOk(s, s.callers[t].pc)
  }

  // ----- reference counts

  lemma HoldersSame(c: map<Tid, Caller>, t: Tid, k: Caller, v: nat)
    requires t in c && (Bumped(k.pc, v) <==> Bumped(c[t].pc, v))
    ensures Holders(c[t := k], v) == Holders(c, v)
  {
  }

  lemma HoldersGain(c: map<Tid, Caller>, t: Tid, k: Caller, v: nat)
    requires t in c && Bumped(k.pc, v) && !Bumped(c[t].pc, v)
    ensures |Holders(c[t := k], v)| == |Holders(c, v)| + 1
  {
    assert Holders(c[t := k], v) == Holders(c, v) + {t};
  }

  lemma HoldersLose(c: map<Tid, Caller>, t: Tid, k: Caller, v: nat)
    requires t in c && !Bumped(k.pc, v) && Bumped(c[t].pc, v)
    ensures |Holders(c[t := k], v)| == |Holders(c, v)| - 1
  {
    assert Holders(c, v) == Holders(c[t := k], v) + {t};
  }

  lemma RefsFrame(s: State, s': State, t: Tid)
    requires RefsOk(s) && s'.refs == s.refs && t in s.callers && t in s'.callers
    requires s'.callers == s.callers[t := s'.callers[t]]
    requires forall v :: 0 <= v < RING ==> (Bumped(s'.callers[t].pc, v) <==> Bumped(s.callers[t].pc, v))
    ensures RefsOk(s')
  {
    forall v | 0 <= v < RING
      ensures s'.refs[v] == |Holders(s'.callers, v)|
    {
      HoldersSame(s.callers, t, s'.callers[t], v);
    }
  }

  lemma RefStepRefs(s: State, s': State, t: Tid, a: CallAction)
    requires RefsOk(s) && Sized(s) && t in s.callers && RefStep(s, s', t, a)
    ensures RefsOk(s')
  {
    var k := s'.callers[t];
    forall v | 0 <= v < RING
      ensures s'.refs[v] == |Holders(s'.callers, v)|
    {
      var before, after := Bumped(s.callers[t].pc, v), Bumped(k.pc, v);
      if before == after {
        HoldersSame(s.callers, t, k, v);
      } else if after {
        HoldersGain(s.callers, t, k, v);
      } else {
        HoldersLose(s.callers, t, k, v);
      }
    }
  }

  /** A zero count means nobody has validated the version. */
  lemma NobodyValidated(s: State, v: nat, t: Tid)
    requires RefsOk(s) && v < RING && s.refs[v] == 0 && t in s.callers
    ensures !Bumped(s.callers[t].pc, v)
  {
    assert t !in Holders(s.callers, v);
  }

  // ----- caller steps

  lemma CallerFrame(s: State, s': State, t: Tid)
    requires |s.ring| == RING && s'.ring == s.ring && s'.pub == s.pub
    requires t in s.callers && t in s'.callers && s'.callers == s.callers[t := s'.callers[t]]
    requires forall u <- s.callers :: CallerRingOk(s, s.callers[u].pc)
    requires CallerRingOk(s', s'.callers[t].pc)
    ensures forall u <- s'.callers :: CallerRingOk(s', s'.callers[u].pc)
  {
  }

  /** Re-validation succeeds only on a live version, and the publisher owns no live version. */
  lemma RefStepCaller(s: State, s': State, t: Tid, a: CallAction)
    requires Sized(s) && RingOk(s) && t in s.callers && CallerRingOk(s, s.callers[t].pc) && RefStep(s, s', t, a)
    ensures s'.ring == s.ring && s'.pub == s.pub && s'.current == s.current && s'.pins == s.pins
    ensures |s'.refs| == RING && t in s'.callers && s'.callers == s.callers[t := s'.callers[t]]
    ensures CallerRingOk(s', s'.callers[t].pc)
  {
  }

  lemma RefStepKeepsRing(s: State, s': State, t: Tid, a: CallAction)
    requires RingInv(s) && t in s.callers && RefStep(s, s', t, a)
    ensures RingInv(s')
  {
    RefStepCaller(s, s', t, a);
    RefStepRefs(s, s', t, a);
    CallerFrame(s, s', t);
  }

  lemma ScanStepKeepsRing(s: State, s': State, t: Tid, a: CallAction)
    requires RingInv(s) && t in s.callers
    requires PinStep(s, s', t, a) || GenScanStep(s, s', t, a) || EnterScanStep(s, s', t, a)
    ensures RingInv(s')
  {
    hide PinStep, GenScanStep, EnterScanStep, CallerRingOk, RefsOk, Bumped;
    assert CallerRingOk(s, s.callers[t].pc);
    if PinStep(s, s', t, a) {
      PinStepCaller(s, s', t, a);
    } else if GenScanStep(s, s', t, a) {
      GenScanCaller(s, s', t, a);
    } else {
      EnterScanCaller(s, s', t, a);
    }
    RefsFrame(s, s', t);
    CallerFrame(s, s', t);
  }

  /** Caller t moved, keeping what it holds and nothing else changing but the pin table. */
  ghost predicate KeepsHold(s: State, s': State, t: Tid)
    requires |s.ring| == RING
  {
    && s'.ring == s.ring && s'.refs == s.refs && s'.pub == s.pub && s'.current == s.current && |s'.pins| == |s.pins|
    && t in s.callers && t in s'.callers && s'.callers == s.callers[t := s'.callers[t]]
    && CallerRingOk(s', s'.callers[t].pc)
    && forall v :: 0 <= v < RING ==> (Bumped(s'.callers[t].pc, v) <==> Bumped(s.callers[t].pc, v))
  }

  lemma PinStepCaller(s: State, s': State, t: Tid, a: CallAction)
    requires Sized(s) && t in s.callers && CallerRingOk(s, s.callers[t].pc) && PinStep(s, s', t, a)
    ensures KeepsHold(s, s', t)
  {
    hide Choose;
  }

  lemma GenScanCaller(s: State, s': State, t: Tid, a: CallAction)
    requires Sized(s) && RingOk(s) && t in s.callers && CallerRingOk(s, s.callers[t].pc) && GenScanStep(s, s', t, a)
    ensures KeepsHold(s, s', t)
  {
  }

  lemma EnterScanCaller(s: State, s': State, t: Tid, a: CallAction)
    requires Sized(s) && RingOk(s) && t in s.callers && CallerRingOk(s, s.callers[t].pc) && EnterScanStep(s, s', t, a)
    ensures KeepsHold(s, s', t)
  {
  }

  // ----- publisher steps

  lemma PubPinMoves(s: State, s': State, a: PubAction)
    requires Sized(s) && PubPinStep(s, s', a)
    ensures Sized(s') && s'.ring == s.ring && s'.refs == s.refs && s'.current == s.current && s'.callers == s.callers
    ensures PubRingOk(s') && forall v :: !Rewriting(s'.pub, v)
  {
  }

  lemma PubPinKeepsRing(s: State, s': State, a: PubAction)
    requires RingInv(s) && PubPinStep(s, s', a)
    ensures RingInv(s')
  {
    PubPinMoves(s, s', a);
    forall u | u in s'.callers
      ensures CallerRingOk(s', s'.callers[u].pc)
    {
      assert CallerRingOk(s, s.callers[u].pc);
    }
  }

  lemma PubScanKeepsRingOk(s: State, s': State, a: PubAction)
    requires Sized(s) && RingOk(s) && PubScanStep(s, s', a)
    ensures RingOk(s')
  {
  }

  lemma RetireKeepsRingOk(s: State, s': State, a: PubAction)
    requires Sized(s) && RingOk(s) && PubRingStep(s, s', a) && (a.RetireStore? || a.RecheckLoad? || a.WriteField?)
    ensures RingOk(s')
  {
  }

  lemma CommitKeepsRingOk(s: State, s': State, a: PubAction)
    requires Sized(s) && RingOk(s) && PubRingStep(s, s', a) && !(a.RetireStore? || a.RecheckLoad? || a.WriteField?)
    ensures RingOk(s')
  {
  }

  lemma PubRingKeepsRingOk(s: State, s': State, a: PubAction)
    requires RingInv(s) && PubRingStep(s, s', a)
    ensures RingOk(s')
  {
    hide PubRingStep, RingOk, RefsOk, CallerRingOk;
    if a.RetireStore? || a.RecheckLoad? || a.WriteField? {
      RetireKeepsRingOk(s, s', a);
    } else {
      CommitKeepsRingOk(s, s', a);
    }
  }

  /** What a publisher step may do to version v: nothing a caller sees, or anything once nobody has
      it validated or the publisher owns it already. */
  ghost predicate Spares(s: State, s': State, v: nat)
    requires |s.ring| == RING && |s'.ring| == RING && |s.refs| == RING && v < RING
  {
    || s.refs[v] == 0 || Rewriting(s.pub, v)
    || (&& s'.ring[v].epoch == s.ring[v].epoch && s'.ring[v].code == s.ring[v].code
        && s'.ring[v].want == s.ring[v].want && !Rewriting(s'.pub, v))
  }

  lemma PubScanSpares(s: State, s': State, a: PubAction, v: nat)
    requires Sized(s) && PubScanStep(s, s', a) && v < RING
    ensures |s'.ring| == RING && Spares(s, s', v)
  {
  }

  lemma PubRingSpares(s: State, s': State, a: PubAction, v: nat)
    requires Sized(s) && PubRingStep(s, s', a) && v < RING
    ensures |s'.ring| == RING && Spares(s, s', v)
  {
  }

  /** Staging into a version starts only when nobody has validated it; from then on it is not live. */
  lemma PubKeepsIntact(s: State, s': State, a: PubAction, u: Tid)
    requires RingInv(s) && (PubScanStep(s, s', a) || PubRingStep(s, s', a)) && u in s.callers
    ensures |s'.ring| == RING && CallerRingOk(s', s.callers[u].pc)
  {
    hide PubScanStep, PubRingStep, RingOk, RefsOk;
    if PubScanStep(s, s', a) { PubScanSpares(s, s', a, 0); } else { PubRingSpares(s, s', a, 0); }
    forall v | 0 <= v < RING
      ensures Spares(s, s', v)
    {
      if PubScanStep(s, s', a) { PubScanSpares(s, s', a, v); } else { PubRingSpares(s, s', a, v); }
    }
    assert CallerRingOk(s, s.callers[u].pc);
    forall v | 0 <= v < RING && s.refs[v] == 0
      ensures !Bumped(s.callers[u].pc, v)
    {
      NobodyValidated(s, v, u);
    }
    SparedStaysOk(s, s', s.callers[u].pc);
  }

  lemma SparedStaysOk(s: State, s': State, pc: PC)
    requires |s.ring| == RING && |s'.ring| == RING && |s.refs| == RING && CallerRingOk(s, pc)
    requires forall v :: 0 <= v < RING ==> Spares(s, s', v)
    requires forall v :: 0 <= v < RING && s.refs[v] == 0 ==> !Bumped(pc, v)
    ensures CallerRingOk(s', pc)
  {
    if pc.GSame? {
      assert Bumped(pc, pc.v) && Spares(s, s', pc.v);
    } else if Validated(pc).Inside? {
      var v := Validated(pc).v;
      assert Bumped(pc, v) && Spares(s, s', v);
    }
  }

  lemma PubStageKeepsRing(s: State, s': State, a: PubAction)
    requires RingInv(s) && (PubScanStep(s, s', a) || PubRingStep(s, s', a))
    ensures RingInv(s')
  {
    if PubScanStep(s, s', a) { PubScanKeepsRingOk(s, s', a); } else { PubRingKeepsRingOk(s, s', a); }
    assert s'.callers == s.callers && s'.refs == s.refs;
    forall u | u in s'.callers
      ensures CallerRingOk(s', s'.callers[u].pc)
    {
      PubKeepsIntact(s, s', a, u);
    }
  }

  lemma StepKeepsRing(s: State, s': State, a: Action)
    requires RingInv(s) && Step(s, s', a)
    ensures RingInv(s')
  {
    match a {
      case ByPublisher(p) =>
        if PubPinStep(s, s', p) { PubPinKeepsRing(s, s', p); } else { PubStageKeepsRing(s, s', p); }
      case ByCaller(t, c) =>
        if RefStep(s, s', t, c) { RefStepKeepsRing(s, s', t, c); } else { ScanStepKeepsRing(s, s', t, c); }
    }
  }

  lemma InitRing(s: State)
    requires Init(s)
    ensures RingInv(s)
  {
  }

  lemma {:induction false} RunKeepsRing(run: seq<State>, acts: seq<Action>, i: nat)
    requires Run(run, acts) && i < |run|
    ensures RingInv(run[i])
  {
    hide Step;
    if i == 0 {
      InitRing(run[0]);
    } else {
      RunKeepsRing(run, acts, i - 1);
      StepKeepsRing(run[i - 1], run[i], acts[i - 1]);
    }
  }

  // ----- theorems

  /** In every run each reference count equals its holders, so a decrement never wraps. */
  lemma RefsExact(run: seq<State>, acts: seq<Action>, i: nat, v: nat)
    requires Run(run, acts) && i < |run| && v < RING
    ensures |run[i].refs| == RING && run[i].refs[v] == |Holders(run[i].callers, v)|
    ensures forall t <- run[i].callers :: Bumped(run[i].callers[t].pc, v) ==> run[i].refs[v] >= 1
  {
    RunKeepsRing(run, acts, i);
    forall t | t in run[i].callers && Bumped(run[i].callers[t].pc, v)
      ensures run[i].refs[v] >= 1
    {
      assert t in Holders(run[i].callers, v);
    }
  }

  /** In every run, from re-validation to leave, also while it pins or unpins in between, a caller's
      version holds exactly the code the publisher set out to write, with the epoch and code it had at
      re-validation; and enter_gen never hands out a version newer than the epoch it was asked for. */
  lemma ValidatedVersionIntact(run: seq<State>, acts: seq<Action>, i: nat, t: Tid)
    requires Run(run, acts) && i < |run| && t in run[i].callers && Validated(run[i].callers[t].pc).Inside?
    ensures var s := run[i];
            var Inside(v, snap, gen) := Validated(s.callers[t].pc);
            && |s.ring| == RING && v < RING
            && s.ring[v].epoch == snap.epoch && s.ring[v].code == snap.code == s.ring[v].want
            && !Rewriting(s.pub, v)
            && (gen.Some? ==> snap.epoch <= gen.value)
  {
    RunKeepsRing(run, acts, i);
    assert CallerRingOk(run[i], run[i].callers[t].pc);
  }
}
