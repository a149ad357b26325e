/** The bounded Chase-Lev work-stealing deque (runtime/march_deque.h).

    One owner thread pushes and pops at the bottom; any number of thieves steal from the top.
    Every load, store and compare-and-swap of the C code is one step of a state machine, and
    the steps of different threads interleave freely.

    `hist` and `returned` are history variables: no step reads them.  `hist` records each push,
    pop and steal at the step where it takes effect, `returned` the items handed to callers. */
module Deque {
  const CAPACITY := 4096

  type Item = int
  type Thread = nat

  datatype Result = Null | Got(item: Item)

  /** Program counter and locals of the owner. */
  datatype Owner =
    | Idle
    | PushBottom(x: Item, b: int)            // bottom loaded
    | PushTop(x: Item, b: int, t: int)       // top loaded
    | PushWritten(x: Item, b: int)           // item stored, bottom not yet
    | PopBottom(b: int)                      // b == bottom - 1
    | PopStored(b: int)                      // bottom lowered to b
    | PopTop(b: int, t: int)                 // top loaded
    | PopLast(b: int, x: Item)               // t == b: about to CAS top
    | PopRestore(b: int, r: Result)          // about to put bottom back
    | PopReturn(x: Item)                     // t < b: about to return

  /** Program counter and locals of a thief. */
  datatype Thief =
    | Away
    | SawTop(t: int)
    | SawBottom(t: int, b: int)
    | SawItem(t: int, x: Item)

  datatype Event = Pushed(x: Item) | Popped(x: Item) | Stolen(x: Item)

  datatype State = State(
    items: seq<Item>, top: int, bottom: int,
    owner: Owner, thieves: map<Thread, Thief>,
    hist: seq<Event>, returned: multiset<Item>)

  datatype Action =
    | DoPushLoadBottom(x: Item) | DoPushLoadTop | DoPushFull | DoPushStoreItem | DoPushStoreBottom
    | DoPopLoadBottom | DoPopStoreBottom | DoPopLoadTop | DoPopEmpty | DoPopLoadItem
    | DoPopCas | DoPopRestore | DoPopReturn
    | DoStealLoadTop(p: Thread) | DoStealLoadBottom(p: Thread) | DoStealEmpty(p: Thread)
    | DoStealLoadItem(p: Thread) | DoStealCas(p: Thread)

  ghost predicate Init(s: State) {
    && |s.items| == CAPACITY
    && s.top == s.bottom == 0
    && s.owner == Idle
    && (forall p <- s.thieves :: s.thieves[p] == Away)
    && s.hist == [] && s.returned == multiset{}
  }

  // ----- owner steps

  ghost predicate PushStep(s: State, s': State, a: Action)
    requires |s.items| == CAPACITY
  {
    match (a, s.owner)
    case (DoPushLoadBottom(x), Idle) =>
      s' == s.(owner := PushBottom(x, s.bottom))
    case (DoPushLoadTop, PushBottom(x, b)) =>
      s' == s.(owner := PushTop(x, b, s.top))
    case (DoPushFull, PushTop(x, b, t)) =>
      b - t >= CAPACITY && s' == s.(owner := Idle)
    case (DoPushStoreItem, PushTop(x, b, t)) =>
      b - t < CAPACITY && s' == s.(items := s.items[b % CAPACITY := x], owner := PushWritten(x, b))
    case (DoPushStoreBottom, PushWritten(x, b)) =>
      s' == s.(bottom := b + 1, owner := Idle, hist := s.hist + [Pushed(x)])
    case _ => false
  }

  ghost predicate PopStep(s: State, s': State, a: Action)
    requires |s.items| == CAPACITY
  {
    match (a, s.owner)
    case (DoPopLoadBottom, Idle) =>
      s' == s.(owner := PopBottom(s.bottom - 1))
    case (DoPopStoreBottom, PopBottom(b)) =>
      s' == s.(bottom := b, owner := PopStored(b))
    case (DoPopLoadTop, PopStored(b)) =>
      // with more than one item left, this load already decides that the owner gets index b
      s' == s.(owner := PopTop(b, s.top),
               hist := if s.top < b then s.hist + [Popped(s.items[b % CAPACITY])] else s.hist)
    case (DoPopEmpty, PopTop(b, t)) =>
      t > b && s' == s.(bottom := b + 1, owner := Idle)
    case (DoPopLoadItem, PopTop(b, t)) =>
      t <= b && s' == s.(owner := if t == b then PopLast(b, s.items[b % CAPACITY])
                                  else PopReturn(s.items[b % CAPACITY]))
    case (DoPopCas, PopLast(b, x)) =>
      if s.top == b
      then s' == s.(top := b + 1, owner := PopRestore(b, Got(x)), hist := s.hist + [Popped(x)])
      else s' == s.(owner := PopRestore(b, Null))
    case (DoPopRestore, PopRestore(b, r)) =>
      s' == s.(bottom := b + 1, owner := Idle,
               returned := if r.Got? then s.returned + multiset{r.item} else s.returned)
    case (DoPopReturn, PopReturn(x)) =>
      s' == s.(owner := Idle, returned := s.returned + multiset{x})
    case _ => false
  }

  // ----- thief steps

  ghost predicate StealStep(s: State, s': State, a: Action, p: Thread)
    requires |s.items| == CAPACITY && p in s.thieves
  {
    match (a, s.thieves[p])
    case (DoStealLoadTop(_), Away) =>
      s' == s.(thieves := s.thieves[p := SawTop(s.top)])
    case (DoStealLoadBottom(_), SawTop(t)) =>
      s' == s.(thieves := s.thieves[p := SawBottom(t, s.bottom)])
    case (DoStealEmpty(_), SawBottom(t, b)) =>
      t >= b && s' == s.(thieves := s.thieves[p := Away])
    case (DoStealLoadItem(_), SawBottom(t, b)) =>
      t < b && s' == s.(thieves := s.thieves[p := SawItem(t, s.items[t % CAPACITY])])
    case (DoStealCas(_), SawItem(t, x)) =>
      if s.top == t
      then s' == s.(top := t + 1, thieves := s.thieves[p := Away],
                    hist := s.hist + [Stolen(x)], returned := s.returned + multiset{x})
      else s' == s.(thieves := s.thieves[p := Away])
    case _ => false
  }

  ghost predicate IsSteal(a: Action) {
    a.DoStealLoadTop? || a.DoStealLoadBottom? || a.DoStealEmpty? || a.DoStealLoadItem? || a.DoStealCas?
  }

  ghost predicate Step(s: State, s': State, a: Action) {
    && |s.items| == CAPACITY
    && if IsSteal(a) then a.p in s.thieves && StealStep(s, s', a, a.p)
       else PushStep(s, s', a) || PopStep(s, s', a)
  }

  ghost predicate Run(run: seq<State>, acts: seq<Action>) {
    && |run| == |acts| + 1
    && Init(run[0])
    && forall i :: 0 <= i < |acts| ==> Step(run[i], run[i + 1], acts[i])
  }

  // ----- the sequential deque the history replays to

  /** The deque contents, or Illegal after a pop or steal that did not take an end item. */
  datatype Contents = Illegal | Legal(q: seq<Item>)

  ghost function Apply(q: seq<Item>, e: Event): Contents {
    match e
    case Pushed(x) => Legal(q + [x])
    case Popped(x) => if q != [] && q[|q| - 1] == x then Legal(q[..|q| - 1]) else Illegal
    case Stolen(x) => if q != [] && q[0] == x then Legal(q[1..]) else Illegal
  }

  ghost function Replay(hist: seq<Event>): Contents {
    if hist == [] then Legal([])
    else
      var before := Replay(hist[..|hist| - 1]);
      if before.Illegal? then Illegal else Apply(before.q, hist[|hist| - 1])
  }

  ghost function PushedBy(e: Event): multiset<Item> {
    if e.Pushed? then multiset{e.x} else multiset{}
  }

  ghost function RemovedBy(e: Event): multiset<Item> {
    if e.Pushed? then multiset{} else multiset{e.x}
  }

  ghost function PushedItems(hist: seq<Event>): multiset<Item> {
    if hist == [] then multiset{}
    else PushedItems(hist[..|hist| - 1]) + PushedBy(hist[|hist| - 1])
  }

  ghost function RemovedItems(hist: seq<Event>): multiset<Item> {
    if hist == [] then multiset{}
    else RemovedItems(hist[..|hist| - 1]) + RemovedBy(hist[|hist| - 1])
  }

  lemma HistorySnoc(hist: seq<Event>, e: Event)
    ensures Replay(hist + [e]) == if Replay(hist).Illegal? then Illegal else Apply(Replay(hist).q, e)
    ensures RemovedItems(hist + [e]) == RemovedItems(hist) + RemovedBy(e)
  {
  }

  lemma ApplyConserves(q: seq<Item>, e: Event)
    requires Apply(q, e).Legal?
    ensures multiset(q) + PushedBy(e) == RemovedBy(e) + multiset(Apply(q, e).q)
  {
    match e {
      case Pushed(x) =>
      case Popped(x) => assert q == q[..|q| - 1] + [x];
      case Stolen(x) => assert q == [x] + q[1..];
    }
  }

  lemma Regroup(p: multiset<Item>, r: multiset<Item>, m: multiset<Item>,
                pe: multiset<Item>, re: multiset<Item>, m': multiset<Item>)
    requires p == r + m && m + pe == re + m'
    ensures p + pe == r + re + m'
  {
    assert p + pe == r + (m + pe);
  }

  /** A legal history never invents, loses or duplicates an item. */
  lemma {:induction false} LegalHistoryConserves(hist: seq<Event>)
    requires Replay(hist).Legal?
    ensures PushedItems(hist) == RemovedItems(hist) + multiset(Replay(hist).q)
  {
    if hist != [] {
      var before := hist[..|hist| - 1];
      LegalHistoryConserves(before);
      var e, q := hist[|hist| - 1], Replay(before).q;
      ApplyConserves(q, e);
      Regroup(PushedItems(before), RemovedItems(before), multiset(q), PushedBy(e), RemovedBy(e),
              multiset(Apply(q, e).q));
    }
  }

  // ----- invariant

  /** One past the last index that still belongs to the deque: the index under an undecided pop
      is still in it. */
  ghost function LogicalBottom(s: State): int {
    match s.owner
    case PopStored(b) => b + 1
    case PopTop(b, t) => if t < b then b else b + 1
    case PopLast(b, _) => b + 1
    case PopRestore(b, _) => b + 1
    case _ => s.bottom
  }

  ghost function Window(items: seq<Item>, lo: int, hi: int): seq<Item>
    requires |items| == CAPACITY && lo <= hi
  {
    seq(hi - lo, i requires 0 <= i < hi - lo => items[(lo + i) % CAPACITY])
  }

  /** The items in the deque, oldest first. */
  ghost function Live(s: State): seq<Item>
    requires |s.items| == CAPACITY && s.top <= LogicalBottom(s)
  {
    Window(s.items, s.top, LogicalBottom(s))
  }

  /** Items the owner has taken and not yet returned. */
  ghost function InFlight(s: State): multiset<Item>
    requires |s.items| == CAPACITY
  {
    match s.owner
    case PopTop(b, t) => if t < b then multiset{s.items[b % CAPACITY]} else multiset{}
    case PopRestore(b, Got(x)) => multiset{x}
    case PopReturn(x) => multiset{x}
    case _ => multiset{}
  }

  ghost predicate OwnerOk(s: State)
    requires |s.items| == CAPACITY
  {
    match s.owner
    case Idle => true
    case PushBottom(_, b) => b == s.bottom
    case PushTop(_, b, t) => b == s.bottom && t <= s.top
    case PushWritten(x, b) => b == s.bottom && b - s.top < CAPACITY && s.items[b % CAPACITY] == x
    case PopBottom(b) => b == s.bottom - 1
    case PopStored(b) => b == s.bottom
    case PopTop(b, t) => b == s.bottom && 0 <= t <= s.top
    case PopLast(b, x) => b == s.bottom && b <= s.top && x == s.items[b % CAPACITY]
    case PopRestore(b, _) => b == s.bottom && s.top == b + 1
    case PopReturn(_) => true
  }

  ghost predicate ThiefOk(s: State, f: Thief)
    requires |s.items| == CAPACITY
  {
    match f
    case Away => true
    case SawTop(t) => 0 <= t <= s.top
    case SawBottom(t, b) => 0 <= t <= s.top && (t < b && s.top == t ==> t < LogicalBottom(s))
    case SawItem(t, x) => 0 <= t <= s.top && (s.top == t ==> t < LogicalBottom(s) && x == s.items[t % CAPACITY])
  }

  /** The part of the invariant that does not speak of the history. */
  ghost predicate Shape(s: State) {
    && |s.items| == CAPACITY
    && 0 <= s.top <= LogicalBottom(s) <= s.top + CAPACITY
    && OwnerOk(s)
    && (forall p <- s.thieves :: ThiefOk(s, s.thieves[p]))
  }

  ghost predicate Inv(s: State) {
    && Shape(s)
    && Replay(s.hist) == Legal(Live(s))
    && RemovedItems(s.hist) == s.returned + InFlight(s)
  }

  lemma PushKeepsShape(s: State, s': State, a: Action)
    requires Shape(s) && PushStep(s, s', a)
    ensures Shape(s')
  {
  }

  lemma PopKeepsOwner(s: State, s': State, a: Action)
    requires Shape(s) && PopStep(s, s', a)
    ensures |s'.items| == CAPACITY && 0 <= s'.top <= LogicalBottom(s') <= s'.top + CAPACITY && OwnerOk(s')
  {
    hide ThiefOk;
  }

  lemma PopKeepsThief(s: State, s': State, a: Action, p: Thread)
    requires Shape(s) && PopStep(s, s', a) && p in s.thieves
    ensures |s'.items| == CAPACITY && ThiefOk(s', s.thieves[p]) && s'.thieves == s.thieves
  {
    assert ThiefOk(s, s.thieves[p]);
  }

  lemma PopKeepsShape(s: State, s': State, a: Action)
    requires Shape(s) && PopStep(s, s', a)
    ensures Shape(s')
  {
    hide PopStep, OwnerOk, ThiefOk;
    PopKeepsOwner(s, s', a);
    forall p | p in s.thieves
      ensures ThiefOk(s', s.thieves[p]) && s'.thieves == s.thieves
    {
      PopKeepsThief(s, s', a, p);
    }
    PopKeepsThieves(s, s', a);
  }

  lemma PopKeepsThieves(s: State, s': State, a: Action)
    requires |s.items| == CAPACITY && PopStep(s, s', a)
    ensures s'.thieves == s.thieves
  {
  }

  lemma StealKeepsShape(s: State, s': State, a: Action)
    requires Shape(s) && IsSteal(a) && a.p in s.thieves && StealStep(s, s', a, a.p)
    ensures Shape(s')
  {
    var f := s.thieves[a.p];
    assert ThiefOk(s, f);
    forall p | p in s'.thieves
      ensures ThiefOk(s', s'.thieves[p])
    {
      if p != a.p { assert ThiefOk(s, s.thieves[p]); }
    }
  }

  /** How a step may change contents, history and returned items together: not at all, by one
      recorded operation on the sequential deque, or by handing over an item in flight. */
  ghost predicate Refines(s: State, s': State)
    requires Shape(s) && Shape(s')
  {
    || (s'.hist == s.hist && Live(s') == Live(s) && s'.returned + InFlight(s') == s.returned + InFlight(s))
    || (exists e :: s'.hist == s.hist + [e] && Apply(Live(s), e) == Legal(Live(s'))
          && s'.returned + InFlight(s') == s.returned + InFlight(s) + RemovedBy(e))
  }

  lemma PushRefines(s: State, s': State, a: Action)
    requires Shape(s) && Shape(s') && PushStep(s, s', a)
    ensures Refines(s, s')
  {
  }

  /** The load of top takes the newest item when at least two are left. */
  lemma PopLoadTopRefines(s: State, s': State)
    requires Shape(s) && Shape(s') && PopStep(s, s', DoPopLoadTop)
    ensures Refines(s, s')
  {
  }

  /** The compare-and-swap takes the only item, or finds it gone. */
  lemma PopCasRefines(s: State, s': State)
    requires Shape(s) && Shape(s') && PopStep(s, s', DoPopCas)
    ensures Refines(s, s')
  {
  }

  lemma PopRefines(s: State, s': State, a: Action)
    requires Shape(s) && Shape(s') && PopStep(s, s', a)
    ensures Refines(s, s')
  {
    match a {
      case DoPopLoadTop => PopLoadTopRefines(s, s');
      case DoPopCas => PopCasRefines(s, s');
      case _ =>
    }
  }

  lemma StealRefines(s: State, s': State, a: Action)
    requires Shape(s) && Shape(s') && IsSteal(a) && a.p in s.thieves && StealStep(s, s', a, a.p)
    ensures Refines(s, s')
  {
    if a.DoStealCas? && s.top == s.thieves[a.p].t {
      TakeRefines(s, s', a);
    } else {
      assert Live(s') == Live(s);
    }
  }

  /** The compare-and-swap that succeeds removes the oldest element. */
  lemma TakeRefines(s: State, s': State, a: Action)
    requires Shape(s) && Shape(s') && a.DoStealCas? && a.p in s.thieves && StealStep(s, s', a, a.p)
    requires s.thieves[a.p].SawItem? && s.top == s.thieves[a.p].t
    ensures Refines(s, s')
  {
    assert ThiefOk(s, s.thieves[a.p]);
    var e := Stolen(s.thieves[a.p].x);
    assert Live(s) == [e.x] + Live(s');
    assert Apply(Live(s), e) == Legal(Live(s'));
    assert s'.hist == s.hist + [e];
  }

  lemma StepRefines(s: State, s': State, a: Action)
    requires Shape(s) && Step(s, s', a)
    ensures Shape(s') && Refines(s, s')
  {
    if IsSteal(a) {
      StealKeepsShape(s, s', a);
      StealRefines(s, s', a);
    } else if PushStep(s, s', a) {
      PushKeepsShape(s, s', a);
      PushRefines(s, s', a);
    } else {
      PopKeepsShape(s, s', a);
      PopRefines(s, s', a);
    }
  }

  lemma StepKeepsInv(s: State, s': State, a: Action)
    requires Inv(s) && Step(s, s', a)
    ensures Inv(s')
  {
    StepRefines(s, s', a);
    if s'.hist != s.hist {
      var e :| s'.hist == s.hist + [e] && Apply(Live(s), e) == Legal(Live(s'))
               && s'.returned + InFlight(s') == s.returned + InFlight(s) + RemovedBy(e);
      HistorySnoc(s.hist, e);
    }
  }

  lemma InitInv(s: State)
    requires Init(s)
    ensures Inv(s)
  {
    assert Live(s) == [];
  }

  lemma {:induction false} RunKeepsInv(run: seq<State>, acts: seq<Action>, i: nat)
    requires Run(run, acts) && i < |run|
    ensures Inv(run[i])
  {
    hide Inv, Step, Init;
    if i == 0 {
      InitInv(run[0]);
    } else {
      RunKeepsInv(run, acts, i - 1);
      StepKeepsInv(run[i - 1], run[i], acts[i - 1]);
    }
  }

  // ----- theorems

  /** Exactness, at every state of every run: the items pushed so far are exactly those returned,
      those still in the deque and the one the owner has in flight. */
  lemma Exactness(run: seq<State>, acts: seq<Action>, i: nat)
    requires Run(run, acts) && i < |run|
    ensures Inv(run[i])
    ensures PushedItems(run[i].hist) == run[i].returned + InFlight(run[i]) + multiset(Live(run[i]))
  {
    RunKeepsInv(run, acts, i);
    LegalHistoryConserves(run[i].hist);
  }

  /** Every run linearizes: the contents are what a sequential deque holds after the recorded
      operations, each pop having taken the newest item and each steal the oldest. */
  lemma Linearizable(run: seq<State>, acts: seq<Action>, i: nat)
    requires Run(run, acts) && i < |run|
    ensures Inv(run[i]) && Replay(run[i].hist) == Legal(Live(run[i]))
  {
    RunKeepsInv(run, acts, i);
  }

  /** A pop answers NULL only if the deque was empty at a step inside that pop: the load of top
      that found it past b, or the lost compare-and-swap. */
  lemma PopNullMeansEmpty(run: seq<State>, acts: seq<Action>, i: nat)
    requires Run(run, acts) && i < |acts|
    requires || (acts[i].DoPopEmpty?)
             || (acts[i].DoPopCas? && run[i + 1].owner.PopRestore? && run[i + 1].owner.r == Null)
    ensures Inv(run[i]) && Live(run[i]) == []
  {
    RunKeepsInv(run, acts, i);
    assert Step(run[i], run[i + 1], acts[i]);
  }

  /** A push is refused exactly when the loaded top leaves no free cell, and then the deque held
      CAPACITY items when top was loaded. */
  lemma PushRefusedMeansFull(run: seq<State>, acts: seq<Action>, i: nat)
    requires Run(run, acts) && i < |acts|
    requires acts[i].DoPushLoadTop?
    ensures Inv(run[i])
    ensures run[i + 1].owner.PushTop?
    ensures run[i + 1].owner.b - run[i + 1].owner.t >= CAPACITY <==> |Live(run[i])| == CAPACITY
  {
    RunKeepsInv(run, acts, i);
    assert Step(run[i], run[i + 1], acts[i]);
  }
}
