/** Closing a Vault table under live handles (runtime/march_extras.c): every operation counts
    itself on an in-flight stripe of the handle before it loads the table slot; a close swaps the
    slot for the closed sentinel, waits the stripes out one at a time and frees the table. */
module VaultClose {
  const STRIPES := 16   // VAULT_RD_STRIPES

  type Tid = nat

  datatype Slot = Open | Closed

  datatype PC =
    | Idle
    | Counted(i: nat, closing: bool)   // in-flight incremented, slot not yet loaded
    | Inside(i: nat, closing: bool)    // has the table
    | Refused(i: nat)                  // saw the sentinel
    | Swap                             // a close that has emptied the table and left
    | Drain(i: nat)                    // took the table out of the slot; stripes below i seen empty

  datatype State = State(inflight: seq<int>, slot: Slot, frees: nat, ths: map<Tid, PC>)

  datatype Action =
    | Enter(t: Tid, i: nat, closing: bool) | Load(t: Tid) | Leave(t: Tid)
    | Exchange(t: Tid) | Wait(t: Tid) | Free(t: Tid)

  ghost predicate Step(s: State, s': State, a: Action) {
    && |s.inflight| == STRIPES && a.t in s.ths
    && match (a, s.ths[a.t])
       case (Enter(t, i, closing), Idle) =>
         i < STRIPES && s' == s.(inflight := s.inflight[i := s.inflight[i] + 1], ths := s.ths[t := Counted(i, closing)])
       case (Load(t), Counted(i, closing)) =>
         s' == s.(ths := s.ths[t := if s.slot == Open then Inside(i, closing) else Refused(i)])
       case (Leave(t), Inside(i, closing)) =>
         i < STRIPES && s' == s.(inflight := s.inflight[i := s.inflight[i] - 1],
                                 ths := s.ths[t := if closing then Swap else Idle])
       case (Leave(t), Refused(i)) =>
         i < STRIPES && s' == s.(inflight := s.inflight[i := s.inflight[i] - 1], ths := s.ths[t := Idle])
       case (Exchange(t), Swap) =>
         s' == s.(slot := Closed, ths := s.ths[t := if s.slot == Open then Drain(0) else Idle])
       case (Wait(t), Drain(i)) =>
         i < STRIPES && s' == s.(ths := s.ths[t := if s.inflight[i] != 0 then Drain(i) else Drain(i + 1)])
       case (Free(t), Drain(i)) =>
         i >= STRIPES && s' == s.(frees := s.frees + 1, ths := s.ths[t := Idle])
       case _ => false
  }

  ghost predicate Init(s: State) {
    && |s.inflight| == STRIPES && (forall i :: 0 <= i < STRIPES ==> s.inflight[i] == 0)
    && s.slot == Open && s.frees == 0 && forall t <- s.ths :: s.ths[t] == Idle
  }

  ghost predicate Run(run: seq<State>, acts: seq<Action>) {
    |run| == |acts| + 1 && Init(run[0]) && forall i :: 0 <= i < |acts| ==> Step(run[i], run[i + 1], acts[i])
  }

  // ----- invariant

  ghost predicate OnStripe(p: PC, i: nat) {
    (p.Counted? || p.Inside? || p.Refused?) && p.i == i
  }

  ghost function InFlight(ths: map<Tid, PC>, i: nat): set<Tid> {
    set t | t in ths && OnStripe(ths[t], i)
  }

  ghost predicate CountsOk(s: State) {
    && |s.inflight| == STRIPES
    && (forall i :: 0 <= i < STRIPES ==> s.inflight[i] == |InFlight(s.ths, i)|)
    && forall t <- s.ths :: s.ths[t].Counted? || s.ths[t].Inside? || s.ths[t].Refused? ==> s.ths[t].i < STRIPES
  }

  /** One thread at most takes the table out of the slot, and it alone frees it. */
  ghost predicate OwnerOk(s: State) {
    && (s.slot == Open ==> s.frees == 0 && forall t <- s.ths :: !s.ths[t].Drain?)
    && (forall t, u :: t in s.ths && u in s.ths && s.ths[t].Drain? && s.ths[u].Drain? ==> t == u)
    && (forall t <- s.ths :: s.ths[t].Drain? ==> s.frees == 0)
    && s.frees <= 1
    && (s.slot == Closed ==> s.frees == 1 || exists t :: t in s.ths && s.ths[t].Drain?)
  }

  ghost predicate Excluded(s: State) {
    && (forall t, u :: t in s.ths && u in s.ths && s.ths[t].Drain? && s.ths[u].Inside? ==> s.ths[u].i >= s.ths[t].i)
    && (s.frees > 0 ==> forall u <- s.ths :: !s.ths[u].Inside?)
  }

  ghost predicate Inv(s: State) { CountsOk(s) && OwnerOk(s) && Excluded(s) }

  lemma InFlightUpdate(ths: map<Tid, PC>, t: Tid, p: PC, i: nat)
    requires t in ths
    ensures |InFlight(ths[t := p], i)|
         == |InFlight(ths, i)| - (if OnStripe(ths[t], i) then 1 else 0) + (if OnStripe(p, i) then 1 else 0)
  {
    var before, after := InFlight(ths, i), InFlight(ths[t := p], i);
    if OnStripe(p, i) { assert after == before + {t}; } else { assert after == before - {t}; }
  }

  lemma StepKeepsCounts(s: State, s': State, a: Action)
    requires CountsOk(s) && Step(s, s', a)
    ensures CountsOk(s')
  {
    forall i | 0 <= i < STRIPES
      ensures s'.inflight[i] == |InFlight(s'.ths, i)|
    {
      InFlightUpdate(s.ths, a.t, s'.ths[a.t], i);
    }
  }

  lemma StepKeepsOwner(s: State, s': State, a: Action)
    requires OwnerOk(s) && Step(s, s', a)
    ensures OwnerOk(s')
  {
    if s.slot == Closed && s.frees == 0 {
      var t :| t in s.ths && s.ths[t].Drain?;
      assert s'.frees == 1 || s'.ths[t].Drain?;
    } else if s'.slot == Closed && s'.frees == 0 {
      assert s'.ths[a.t].Drain?;
    }
  }

  lemma StepKeepsExcluded(s: State, s': State, a: Action)
    requires Inv(s) && Step(s, s', a)
    ensures Excluded(s')
  {
    if a.Wait? && s.inflight[s.ths[a.t].i] == 0 {
      var i := s.ths[a.t].i;
      forall u | u in s.ths && s.ths[u].Inside?
        ensures s.ths[u].i != i
      {
        assert u !in InFlight(s.ths, i);
      }
    }
  }

  lemma {:induction false} RunKeepsInv(run: seq<State>, acts: seq<Action>, i: nat)
    requires Run(run, acts) && i < |run|
    ensures Inv(run[i])
  {
    if i == 0 {
      forall k | 0 <= k < STRIPES
        ensures InFlight(run[0].ths, k) == {}
      {
      }
    } else {
      RunKeepsInv(run, acts, i - 1);
      StepKeepsCounts(run[i - 1], run[i], acts[i - 1]);
      StepKeepsOwner(run[i - 1], run[i], acts[i - 1]);
      StepKeepsExcluded(run[i - 1], run[i], acts[i - 1]);
    }
  }

  /** In every run, with any number of concurrent closers: the table is freed at most once, a closed
      table not yet freed has a closer about to free it, and whoever got the table from vault_enter
      is out of it before and after the free. */
  lemma FreedOnceAndUnused(run: seq<State>, acts: seq<Action>, i: nat)
    requires Run(run, acts) && i < |run|
    ensures run[i].frees <= 1
    ensures run[i].slot == Closed && run[i].frees == 0 ==> exists t :: t in run[i].ths && run[i].ths[t].Drain?
    ensures run[i].frees > 0 ==> forall t <- run[i].ths :: !run[i].ths[t].Inside?
    ensures i < |acts| && acts[i].Free? ==> run[i].frees == 0 && forall t <- run[i].ths :: !run[i].ths[t].Inside?
  {
    RunKeepsInv(run, acts, i);
    if i < |acts| && acts[i].Free? {
      assert Step(run[i], run[i + 1], acts[i]);
    }
  }

  /** Once closed, a table stays closed, and every operation that loads the slot then is refused. */
  lemma {:induction false} ClosedForGood(run: seq<State>, acts: seq<Action>, i: nat, j: nat)
    requires Run(run, acts) && i <= j < |run| && run[i].slot == Closed
    ensures run[j].slot == Closed
    ensures j < |acts| && acts[j].Load? ==> acts[j].t in run[j + 1].ths && run[j + 1].ths[acts[j].t].Refused?
    decreases j
  {
    if i < j {
      ClosedForGood(run, acts, i, j - 1);
      assert Step(run[j - 1], run[j], acts[j - 1]);
    }
    if j < |acts| { assert Step(run[j], run[j + 1], acts[j]); }
  }

  // ----- the free is always within reach

  /** A continuation of s that ends just after the free. */
  ghost predicate Reaches(s: State, run: seq<State>, acts: seq<Action>) {
    && |run| == |acts| + 1 && run[0] == s && run[|acts|].frees == 1
    && forall i :: 0 <= i < |acts| ==> Step(run[i], run[i + 1], acts[i])
  }

  lemma Prepend(s: State, a: Action, run: seq<State>, acts: seq<Action>)
    requires run != [] && Step(s, run[0], a) && Reaches(run[0], run, acts)
    ensures Reaches(s, [s] + run, [a] + acts)
  {
    hide Step;
    var run', acts' := [s] + run, [a] + acts;
    forall i | 0 <= i < |acts'|
      ensures Step(run'[i], run'[i + 1], acts'[i])
    {
      if i > 0 { assert Step(run[i - 1], run[i], acts[i - 1]); }
    }
  }

  ghost function Entering(ths: map<Tid, PC>): set<Tid> {
    set t | t in ths && ths[t].Counted?
  }

  ghost function Within(ths: map<Tid, PC>): set<Tid> {
    set t | t in ths && (ths[t].Counted? || ths[t].Inside? || ths[t].Refused?)
  }

  /** The next step of an operation that is counted: load the slot, or leave. */
  lemma Outward(s: State, t: Tid) returns (s': State, a: Action)
    requires Inv(s) && s.slot == Closed && t in Within(s.ths)
    ensures Step(s, s', a) && s'.slot == Closed && s'.frees == s.frees
    ensures |Entering(s'.ths)| + |Within(s'.ths)| < |Entering(s.ths)| + |Within(s.ths)|
  {
    hide OwnerOk, Excluded, InFlight;
    var p := s.ths[t];
    if p.Counted? {
      s', a := s.(ths := s.ths[t := Refused(p.i)]), Load(t);
      MovesOut(s.ths, t, Refused(p.i));
    } else {
      var q := if p.Inside? && p.closing then Swap else Idle;
      s' := s.(inflight := s.inflight[p.i := s.inflight[p.i] - 1], ths := s.ths[t := q]);
      a := Leave(t);
      MovesOut(s.ths, t, q);
    }
  }

  lemma MovesOut(ths: map<Tid, PC>, t: Tid, q: PC)
    requires t in Within(ths)
    requires if ths[t].Counted? then q.Refused? else q.Swap? || q.Idle?
    ensures |Entering(ths[t := q])| + |Within(ths[t := q])| < |Entering(ths)| + |Within(ths)|
  {
    var after := ths[t := q];
    if ths[t].Counted? {
      assert Entering(after) == Entering(ths) - {t} && Within(after) == Within(ths);
    } else {
      assert Entering(after) == Entering(ths) && Within(after) == Within(ths) - {t};
    }
  }

  ghost predicate Draining(s: State, t: Tid) {
    t in s.ths && s.ths[t].Drain?
  }

  ghost function StripesLeft(s: State, t: Tid): nat {
    if Draining(s, t) && s.ths[t].i < STRIPES then STRIPES - s.ths[t].i else 0
  }

  /** With nobody counted every stripe is empty, so the closer moves on. */
  lemma Onward(s: State, t: Tid) returns (s': State)
    requires Inv(s) && Draining(s, t) && s.ths[t].i < STRIPES && Within(s.ths) == {}
    ensures Step(s, s', Wait(t)) && s'.slot == s.slot && s'.frees == s.frees && Within(s'.ths) == {}
    ensures Draining(s', t) && StripesLeft(s', t) < StripesLeft(s, t)
    ensures Entering(s'.ths) == Entering(s.ths)
  {
    var i := s.ths[t].i;
    assert InFlight(s.ths, i) <= Within(s.ths);
    s' := s.(ths := s.ths[t := Drain(i + 1)]);
  }

  /** The free is reached, not only allowed: from every state with the table closed and not yet
      freed there is a continuation in which the operations already inside leave, the closer that
      took the table waits the stripes out, and the table is freed. */
  lemma {:induction false} FreeWithinReach(s: State, t: Tid) returns (run: seq<State>, acts: seq<Action>)
    requires Inv(s) && s.slot == Closed && s.frees == 0 && Draining(s, t)
    ensures Reaches(s, run, acts)
    decreases |Entering(s.ths)| + |Within(s.ths)|, StripesLeft(s, t)
  {
    var s', a;
    if u :| u in Within(s.ths) {
      s', a := Outward(s, u);
    } else if s.ths[t].i < STRIPES {
      a := Wait(t);
      s' := Onward(s, t);
    } else {
      a := Free(t);
      s' := s.(frees := 1, ths := s.ths[t := Idle]);
      return [s, s'], [a];
    }
    StepKeepsCounts(s, s', a);
    StepKeepsOwner(s, s', a);
    StepKeepsExcluded(s, s', a);
    run, acts := FreeWithinReach(s', t);
    Prepend(s, a, run, acts);
    run, acts := [s] + run, [a] + acts;
  }

  /** In every run: a closed table not yet freed can still be freed, and it is freed once. */
  lemma ClosedIsFreed(run: seq<State>, acts: seq<Action>, i: nat) returns (more: seq<State>, rest: seq<Action>)
    requires Run(run, acts) && i < |run| && run[i].slot == Closed && run[i].frees == 0
    ensures Reaches(run[i], more, rest)
  {
    RunKeepsInv(run, acts, i);
    var t :| t in run[i].ths && run[i].ths[t].Drain?;
    more, rest := FreeWithinReach(run[i], t);
  }
}
