/** The striped reader/writer lock of a Vault shard (runtime/march_extras.c): readers count
    themselves on one of sixteen stripes and re-check the writer flag; a writer raises the flag and
    drains the stripes one at a time. */
module VaultLock {
  import opened Wrappers

  const STRIPES := 16   // VAULT_RD_STRIPES

  type Tid = nat

  datatype PC =
    | Idle
    | RSpin(i: nat)      // before a load of the writer flag
    | RTry(i: nat)       // flag seen clear, before the increment
    | RCounted(i: nat)   // incremented, before the re-check
    | RIn(i: nat)        // reading
    | RBack(i: nat)      // re-check failed, before the decrement
    | WLocked            // holds the writers' mutex, flag not yet raised
    | WDrain(i: nat)     // flag raised, stripes below i seen empty
    | WIn                // writing
    | WOut               // flag lowered, mutex not yet released

  datatype State = State(readers: seq<int>, writer: bool, mutex: Option<Tid>, ths: map<Tid, PC>)

  datatype Action =
    | ReadStart(t: Tid, i: nat) | ReadSpin(t: Tid) | ReadCount(t: Tid) | ReadCheck(t: Tid) | ReadBack(t: Tid)
    | ReadUnlock(t: Tid)
    | WriteMutex(t: Tid) | WriteFlag(t: Tid) | WriteDrain(t: Tid) | WriteEnter(t: Tid) | WriteClear(t: Tid)
    | WriteUnlock(t: Tid)

  ghost function Put(s: State, t: Tid, p: PC): map<Tid, PC> { s.ths[t := p] }

  ghost predicate ReaderStep(s: State, s': State, a: Action)
    requires |s.readers| == STRIPES && a.t in s.ths
  {
    match (a, s.ths[a.t])
    case (ReadStart(t, i), Idle) => i < STRIPES && s' == s.(ths := Put(s, t, RSpin(i)))
    case (ReadSpin(t), RSpin(i)) => s' == s.(ths := Put(s, t, if s.writer then RSpin(i) else RTry(i)))
    case (ReadCount(t), RTry(i)) =>
      i < STRIPES && s' == s.(readers := s.readers[i := s.readers[i] + 1], ths := Put(s, t, RCounted(i)))
    case (ReadCheck(t), RCounted(i)) => s' == s.(ths := Put(s, t, if s.writer then RBack(i) else RIn(i)))
    case (ReadBack(t), RBack(i)) =>
      i < STRIPES && s' == s.(readers := s.readers[i := s.readers[i] - 1], ths := Put(s, t, RSpin(i)))
    case (ReadUnlock(t), RIn(i)) =>
      i < STRIPES && s' == s.(readers := s.readers[i := s.readers[i] - 1], ths := Put(s, t, Idle))
    case _ => false
  }

  ghost predicate WriterStep(s: State, s': State, a: Action)
    requires |s.readers| == STRIPES && a.t in s.ths
  {
    match (a, s.ths[a.t])
    case (WriteMutex(t), Idle) => s.mutex.None? && s' == s.(mutex := Some(t), ths := Put(s, t, WLocked))
    case (WriteFlag(t), WLocked) => s' == s.(writer := true, ths := Put(s, t, WDrain(0)))
    case (WriteDrain(t), WDrain(i)) =>
      i < STRIPES && s' == s.(ths := Put(s, t, if s.readers[i] != 0 then WDrain(i) else WDrain(i + 1)))
    case (WriteEnter(t), WDrain(i)) => i >= STRIPES && s' == s.(ths := Put(s, t, WIn))
    case (WriteClear(t), WIn) => s' == s.(writer := false, ths := Put(s, t, WOut))
    case (WriteUnlock(t), WOut) => s' == s.(mutex := None, ths := Put(s, t, Idle))
    case _ => false
  }

  ghost predicate Step(s: State, s': State, a: Action) {
    |s.readers| == STRIPES && a.t in s.ths && (ReaderStep(s, s', a) || WriterStep(s, s', a))
  }

  ghost predicate Init(s: State) {
    && |s.readers| == STRIPES && (forall i :: 0 <= i < STRIPES ==> s.readers[i] == 0)
    && !s.writer && s.mutex == None && forall t <- s.ths :: s.ths[t] == Idle
  }

  ghost predicate Run(run: seq<State>, acts: seq<Action>) {
    |run| == |acts| + 1 && Init(run[0]) && forall i :: 0 <= i < |acts| ==> Step(run[i], run[i + 1], acts[i])
  }

  // ----- invariant

  ghost predicate OnStripe(p: PC, i: nat) {
    (p.RCounted? || p.RIn? || p.RBack?) && p.i == i
  }

  ghost function Counted(ths: map<Tid, PC>, i: nat): set<Tid> {
    set t | t in ths && OnStripe(ths[t], i)
  }

  ghost predicate CountsOk(s: State) {
    |s.readers| == STRIPES && forall i :: 0 <= i < STRIPES ==> s.readers[i] == |Counted(s.ths, i)|
  }

  ghost predicate Reading(p: PC) { p.RSpin? || p.RTry? || p.RCounted? || p.RIn? || p.RBack? }

  ghost predicate Writing(p: PC) { p.WLocked? || p.WDrain? || p.WIn? || p.WOut? }

  ghost predicate LockOk(s: State) {
    && (forall t <- s.ths :: Writing(s.ths[t]) <==> s.mutex == Some(t))
    && (forall t <- s.ths :: s.ths[t].WDrain? || s.ths[t].WIn? ==> s.writer)
    && (forall t <- s.ths :: Reading(s.ths[t]) ==> s.ths[t].i < STRIPES)
  }

  /** A writer that has drained stripe i meets no reader on it any more. */
  ghost predicate Excluded(s: State) {
    && (forall t, u :: t in s.ths && u in s.ths && s.ths[t].WDrain? && s.ths[u].RIn? ==> s.ths[u].i >= s.ths[t].i)
    && (forall t, u :: t in s.ths && u in s.ths && s.ths[t].WIn? ==> !s.ths[u].RIn?)
  }

  ghost predicate Inv(s: State) {
    CountsOk(s) && LockOk(s) && Excluded(s)
  }

  lemma CountedUpdate(ths: map<Tid, PC>, t: Tid, p: PC, i: nat)
    requires t in ths
    ensures |Counted(ths[t := p], i)|
         == |Counted(ths, i)| - (if OnStripe(ths[t], i) then 1 else 0) + (if OnStripe(p, i) then 1 else 0)
  {
    var before, after := Counted(ths, i), Counted(ths[t := p], i);
    if OnStripe(p, i) { assert after == before + {t}; } else { assert after == before - {t}; }
  }

  lemma StepKeepsCounts(s: State, s': State, a: Action)
    requires CountsOk(s) && Step(s, s', a)
    ensures CountsOk(s')
  {
    forall i | 0 <= i < STRIPES
      ensures s'.readers[i] == |Counted(s'.ths, i)|
    {
      CountedUpdate(s.ths, a.t, s'.ths[a.t], i);
    }
  }

  lemma ReaderKeepsLock(s: State, s': State, a: Action)
    requires LockOk(s) && |s.readers| == STRIPES && a.t in s.ths && ReaderStep(s, s', a)
    ensures LockOk(s')
  {
  }

  lemma WriterKeepsLock(s: State, s': State, a: Action)
    requires LockOk(s) && |s.readers| == STRIPES && a.t in s.ths && WriterStep(s, s', a)
    ensures LockOk(s')
  {
  }

  lemma StepKeepsLock(s: State, s': State, a: Action)
    requires LockOk(s) && Step(s, s', a)
    ensures LockOk(s')
  {
    hide LockOk, ReaderStep, WriterStep;
    if ReaderStep(s, s', a) { ReaderKeepsLock(s, s', a); } else { WriterKeepsLock(s, s', a); }
  }

  /** An empty stripe holds no reader. */
  lemma DrainKeepsExcluded(s: State, s': State, t: Tid)
    requires CountsOk(s) && Excluded(s) && Step(s, s', WriteDrain(t))
    ensures Excluded(s')
  {
    var i := s.ths[t].i;
    if s.readers[i] == 0 {
      forall u | u in s.ths && s.ths[u].RIn?
        ensures s.ths[u].i != i
      {
        assert u !in Counted(s.ths, i);
      }
    }
  }

  /** With the flag up no reader passes its re-check. */
  lemma ReaderKeepsExcluded(s: State, s': State, a: Action)
    requires LockOk(s) && Excluded(s) && |s.readers| == STRIPES && a.t in s.ths && ReaderStep(s, s', a)
    ensures Excluded(s')
  {
  }

  lemma WriterKeepsExcluded(s: State, s': State, a: Action)
    requires LockOk(s) && Excluded(s) && |s.readers| == STRIPES && a.t in s.ths && WriterStep(s, s', a)
    requires !a.WriteDrain?
    ensures Excluded(s')
  {
  }

  lemma StepKeepsExcluded(s: State, s': State, a: Action)
    requires Inv(s) && Step(s, s', a)
    ensures Excluded(s')
  {
    hide CountsOk, LockOk, Excluded, ReaderStep, WriterStep;
    if a.WriteDrain? {
      DrainKeepsExcluded(s, s', a.t);
    } else if ReaderStep(s, s', a) {
      ReaderKeepsExcluded(s, s', a);
    } else {
      WriterKeepsExcluded(s, s', a);
    }
  }

  lemma {:induction false} RunKeepsInv(run: seq<State>, acts: seq<Action>, i: nat)
    requires Run(run, acts) && i < |run|
    ensures Inv(run[i])
  {
    if i == 0 {
      forall k | 0 <= k < STRIPES
        ensures Counted(run[0].ths, k) == {}
      {
      }
    } else {
      RunKeepsInv(run, acts, i - 1);
      StepKeepsCounts(run[i - 1], run[i], acts[i - 1]);
      StepKeepsLock(run[i - 1], run[i], acts[i - 1]);
      StepKeepsExcluded(run[i - 1], run[i], acts[i - 1]);
    }
  }

  /** Exclusion in every run: a writer shares the shard with no reader and no other writer. */
  lemma WriterExcludesAll(run: seq<State>, acts: seq<Action>, i: nat, t: Tid, u: Tid)
    requires Run(run, acts) && i < |run| && t in run[i].ths && u in run[i].ths && t != u && run[i].ths[t].WIn?
    ensures !run[i].ths[u].RIn? && !run[i].ths[u].WIn?
  {
    RunKeepsInv(run, acts, i);
    assert Writing(run[i].ths[t]) && (Writing(run[i].ths[u]) <==> run[i].mutex == Some(u));
  }

  /** Each stripe's count is the number of readers between their increment and decrement on it. */
  lemma StripeCountsExact(run: seq<State>, acts: seq<Action>, i: nat, k: nat)
    requires Run(run, acts) && i < |run| && k < STRIPES
    ensures |run[i].readers| == STRIPES && run[i].readers[k] == |Counted(run[i].ths, k)|
  {
    RunKeepsInv(run, acts, i);
  }
}
