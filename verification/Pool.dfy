/** The elastic pool behind blocking FFI calls (runtime/march_ffi.c).

    Workers and submitting callers interleave at every mutex acquisition and release, condition
    wait, wake-up, time-out and thread creation.  Creation may fail, in which case the caller tries
    to take its own call back.  `at`, `ran` and `missed` are history: where each call is, how often
    it ran, and how many failed creations found their call already claimed. */
module Pool {
  import opened Wrappers

  type Wid = nat
  type Call = nat

  datatype Worker =
    | Spawned                 // created, about to take the mutex
    | Top                     // holds the mutex at the head of its loop
    | Busy(b: Call)           // running a call without the mutex
    | Again                   // call done, about to take the mutex
    | Parked                  // in the timed wait
    | Woken(timedOut: bool)   // left the wait, about to take the mutex back
    | Resumed(timedOut: bool) // holds the mutex again, still counted as waiting
    | Gone

  datatype Caller =
    | Fresh | Locked | Enqueued(need: bool) | Signalled(need: bool) | NeedSpawn
    | SpawnFailed | Unlinking | Inline | Waiting | Done

  datatype Owner = ByWorker(w: Wid) | ByCaller(c: Call)

  datatype Place = Unsent | Queued | AtWorker(w: Wid) | AtCaller | Ran

  datatype State = State(
    queue: seq<Call>, queued: int, waiting: int, mu: Option<Owner>,
    workers: map<Wid, Worker>, callers: map<Call, Caller>,
    at: map<Call, Place>, ran: multiset<Call>, missed: nat, failed: nat)

  datatype Action =
    | WLock(w: Wid) | WClaim(w: Wid) | WPark(w: Wid) | WQuit(w: Wid) | WFinish(w: Wid)
    | WSpurious(w: Wid) | WTimeout(w: Wid) | WReacquire(w: Wid) | WResume(w: Wid)
    | CLock(c: Call) | CEnqueue(c: Call) | CSignal(c: Call, w: Wid) | CSignalNobody(c: Call) | CUnlock(c: Call)
    | CSpawn(c: Call, w: Wid) | CSpawnFail(c: Call) | CRelock(c: Call) | CUnlink(c: Call) | CRunInline(c: Call)
    | CReturn(c: Call)

  function SetW(s: State, w: Wid, p: Worker): map<Wid, Worker> { s.workers[w := p] }

  /** march_blk_worker. */
  function WorkerStep(s: State, a: Action, w: Wid): Option<State>
    requires w in s.workers
  {
    match (a, s.workers[w])
    case (WLock(_), Spawned) =>
      if s.mu.None? then Some(s.(mu := Some(ByWorker(w)), workers := SetW(s, w, Top))) else None
    case (WLock(_), Again) => if s.mu.None? then Some(s.(mu := Some(ByWorker(w)), workers := SetW(s, w, Top))) else None
    case (WClaim(_), Top) =>
      if s.queue != [] then
        Some(s.(queue := s.queue[1..], queued := s.queued - 1, mu := None,
                workers := SetW(s, w, Busy(s.queue[0])), at := s.at[s.queue[0] := AtWorker(w)]))
      else None
    case (WPark(_), Top) =>
      if s.queue == [] then Some(s.(waiting := s.waiting + 1, mu := None, workers := SetW(s, w, Parked))) else None
    case (WQuit(_), Top) =>
      // the clock could not be read
      if s.queue == [] then Some(s.(mu := None, workers := SetW(s, w, Gone))) else None
    case (WFinish(_), Busy(b)) =>
      Some(s.(workers := SetW(s, w, Again), at := s.at[b := Ran], ran := s.ran + multiset{b}))
    case (WSpurious(_), Parked) => Some(s.(workers := SetW(s, w, Woken(false))))
    case (WTimeout(_), Parked) => Some(s.(workers := SetW(s, w, Woken(true))))
    case (WReacquire(_), Woken(to)) =>
      if s.mu.None? then Some(s.(mu := Some(ByWorker(w)), workers := SetW(s, w, Resumed(to)))) else None
    case (WResume(_), Resumed(to)) =>
      if s.queue == [] && to then Some(s.(waiting := s.waiting - 1, mu := None, workers := SetW(s, w, Gone)))
      else Some(s.(waiting := s.waiting - 1, workers := SetW(s, w, Top)))
    case _ => None
  }

  function SetC(s: State, c: Call, p: Caller): map<Call, Caller> { s.callers[c := p] }

  function Remove<T(==)>(q: seq<T>, c: T): (r: seq<T>)
    ensures c !in q ==> r == q
    ensures c in q ==> |r| == |q| - 1
  {
    if q == [] then [] else if q[0] == c then q[1..] else [q[0]] + Remove(q[1..], c)
  }

  /** march_run_blocking. */
  function CallerStep(s: State, a: Action, c: Call): Option<State>
    requires c in s.callers
  {
    match (a, s.callers[c])
    case (CLock(_), Fresh) =>
      if s.mu.None? then Some(s.(mu := Some(ByCaller(c)), callers := SetC(s, c, Locked))) else None
    case (CEnqueue(_), Locked) =>
      Some(s.(queue := s.queue + [c], queued := s.queued + 1, at := s.at[c := Queued],
              callers := SetC(s, c, Enqueued(s.queued + 1 > s.waiting))))
    case (CSignal(_, w), Enqueued(need)) =>
      if w in s.workers && s.workers[w].Parked?
      then Some(s.(workers := SetW(s, w, Woken(false)), callers := SetC(s, c, Signalled(need)))) else None
    case (CSignalNobody(_), Enqueued(need)) =>
      if forall w :: w in s.workers ==> !s.workers[w].Parked?
      then Some(s.(callers := SetC(s, c, Signalled(need)))) else None
    case (CUnlock(_), Signalled(need)) =>
      Some(s.(mu := None, callers := SetC(s, c, if need then NeedSpawn else Waiting)))
    case (CSpawn(_, w), NeedSpawn) =>
      if w !in s.workers then Some(s.(workers := SetW(s, w, Spawned), callers := SetC(s, c, Waiting))) else None
    case (CSpawnFail(_), NeedSpawn) =>
      Some(s.(callers := SetC(s, c, SpawnFailed), failed := s.failed + 1))
    case (CRelock(_), SpawnFailed) =>
      if s.mu.None? then Some(s.(mu := Some(ByCaller(c)), callers := SetC(s, c, Unlinking))) else None
    case (CUnlink(_), Unlinking) =>
      if c in s.queue
      then Some(s.(queue := Remove(s.queue, c), queued := s.queued - 1, mu := None, at := s.at[c := AtCaller],
                   callers := SetC(s, c, Inline)))
      else Some(s.(mu := None, callers := SetC(s, c, Waiting), missed := s.missed + 1))
    case (CRunInline(_), Inline) =>
      Some(s.(at := s.at[c := Ran], ran := s.ran + multiset{c}, callers := SetC(s, c, Done)))
    case (CReturn(_), Waiting) => if c in s.ran then Some(s.(callers := SetC(s, c, Done))) else None
    case _ => None
  }

  predicate OfWorker(a: Action) {
    || a.WLock? || a.WClaim? || a.WPark? || a.WQuit? || a.WFinish?
    || a.WSpurious? || a.WTimeout? || a.WReacquire? || a.WResume?
  }

  function Next(s: State, a: Action): Option<State> {
    if OfWorker(a) then if a.w in s.workers then WorkerStep(s, a, a.w) else None
    else if a.c in s.callers then CallerStep(s, a, a.c) else None
  }

  ghost predicate Init(s: State) {
    && s.queue == [] && s.queued == 0 && s.waiting == 0 && s.mu == None && s.workers == map[]
    && (forall c <- s.callers :: s.callers[c] == Fresh)
    && s.at.Keys == s.callers.Keys && (forall c <- s.at :: s.at[c] == Unsent)
    && s.ran == multiset{} && s.missed == 0 && s.failed == 0
  }

  /** Each state follows from the one before by its action. */
  ghost predicate Follows(run: seq<State>, acts: seq<Action>) {
    |run| == |acts| + 1 && forall i :: 0 <= i < |acts| ==> Next(run[i], acts[i]) == Some(run[i + 1])
  }

  ghost predicate Run(run: seq<State>, acts: seq<Action>) {
    Follows(run, acts) && Init(run[0])
  }

  // ----- who is where

  ghost predicate IsWaiting(p: Worker) { p.Parked? || p.Woken? || p.Resumed? }

  ghost function WaitingWorkers(ws: map<Wid, Worker>): set<Wid> {
    set w | w in ws && IsWaiting(ws[w])
  }

  /** A worker that will look at the queue before doing anything else. */
  ghost predicate IsServer(p: Worker) { p.Spawned? || p.Top? || p.Woken? || p.Resumed? }

  ghost function Servers(ws: map<Wid, Worker>): set<Wid> {
    set w | w in ws && IsServer(ws[w])
  }

  /** Callers that owe the pool a worker. */
  ghost predicate Promises(p: Caller) {
    p == Enqueued(true) || p == Signalled(true) || p.NeedSpawn? || p.SpawnFailed? || p.Unlinking?
  }

  ghost function Promisers(cs: map<Call, Caller>): set<Call> {
    set c | c in cs && Promises(cs[c])
  }

  // ----- invariant: counters and mutex

  ghost predicate HoldsMutexW(p: Worker) { p.Top? || p.Resumed? }
  ghost predicate HoldsMutexC(p: Caller) { p.Locked? || p.Enqueued? || p.Signalled? || p.Unlinking? }

  ghost predicate MutexOk(s: State) {
    && (forall w <- s.workers :: HoldsMutexW(s.workers[w]) <==> s.mu == Some(ByWorker(w)))
    && (forall c <- s.callers :: HoldsMutexC(s.callers[c]) <==> s.mu == Some(ByCaller(c)))
    && (s.mu.Some? && s.mu.value.ByWorker? ==> s.mu.value.w in s.workers)
  }

  ghost predicate CountersOk(s: State) {
    s.queued == |s.queue| && s.waiting == |WaitingWorkers(s.workers)|
  }

  /** A submission between its enqueue and its signal that decided no worker is needed. */
  ghost predicate SignalDue(s: State) {
    exists c :: c in s.callers && s.callers[c] == Enqueued(false)
  }

  ghost predicate ElasticOk(s: State) {
    && |s.queue| <= |Servers(s.workers)| + |Promisers(s.callers)| + s.missed + (if SignalDue(s) then 1 else 0)
    && (SignalDue(s) ==> |s.queue| <= |WaitingWorkers(s.workers)|)
  }

  // ----- invariant: each call is in one place

  ghost predicate Distinct(q: seq<Call>) {
    forall i, j :: 0 <= i < j < |q| ==> q[i] != q[j]
  }

  ghost predicate PlaceOk(s: State, c: Call)
    requires c in s.callers && c in s.at
  {
    && (s.at[c] == Queued <==> c in s.queue)
    && (s.at[c].AtWorker? ==> s.at[c].w in s.workers && s.workers[s.at[c].w] == Busy(c))
    && s.ran[c] == (if s.at[c] == Ran then 1 else 0)
    && match s.callers[c]
       case Fresh => s.at[c] == Unsent
       case Locked => s.at[c] == Unsent
       case Inline => s.at[c] == AtCaller
       case Done => s.at[c] == Ran
       case _ => s.at[c] == Queued || s.at[c].AtWorker? || s.at[c] == Ran
  }

  ghost predicate PlacesOk(s: State) {
    && s.at.Keys == s.callers.Keys && Distinct(s.queue)
    && (forall c <- s.callers :: PlaceOk(s, c))
    && (forall c <- s.queue :: c in s.callers)
    && (forall w <- s.workers :: s.workers[w].Busy? ==> s.workers[w].b in s.at && s.at[s.workers[w].b] == AtWorker(w))
  }

  ghost predicate FailuresOk(s: State) {
    && (s.failed == 0 ==> s.missed == 0)
    && forall c <- s.callers ::
         s.failed == 0 ==> !s.callers[c].SpawnFailed? && !s.callers[c].Unlinking? && !s.callers[c].Inline?
  }

  ghost predicate Inv(s: State) {
    MutexOk(s) && CountersOk(s) && ElasticOk(s) && PlacesOk(s) && FailuresOk(s)
  }

  // ----- counting

  ghost function One(b: bool): int { if b then 1 else 0 }

  lemma ServersUpdate(ws: map<Wid, Worker>, w: Wid, p: Worker)
    ensures |Servers(ws[w := p])| == |Servers(ws)| - One(w in ws && IsServer(ws[w])) + One(IsServer(p))
  {
    var before, after := Servers(ws), Servers(ws[w := p]);
    if IsServer(p) { assert after == before + {w}; } else { assert after == before - {w}; }
  }

  lemma WaitingUpdate(ws: map<Wid, Worker>, w: Wid, p: Worker)
    ensures |WaitingWorkers(ws[w := p])| == |WaitingWorkers(ws)| - One(w in ws && IsWaiting(ws[w])) + One(IsWaiting(p))
  {
    var before, after := WaitingWorkers(ws), WaitingWorkers(ws[w := p]);
    if IsWaiting(p) { assert after == before + {w}; } else { assert after == before - {w}; }
  }

  lemma PromisersUpdate(cs: map<Call, Caller>, c: Call, p: Caller)
    requires c in cs
    ensures |Promisers(cs[c := p])| == |Promisers(cs)| - One(Promises(cs[c])) + One(Promises(p))
  {
    var before, after := Promisers(cs), Promisers(cs[c := p]);
    if Promises(p) { assert after == before + {c}; } else { assert after == before - {c}; }
  }

  // ----- preservation: worker steps

  lemma WorkerMutex(s: State, a: Action, w: Wid)
    requires MutexOk(s) && w in s.workers && WorkerStep(s, a, w).Some?
    ensures MutexOk(WorkerStep(s, a, w).value)
  {
  }

  /** What a worker step does to the counters: one worker moves, callers stay, and the queue shrinks
      only under a worker that stops serving. */
  lemma WorkerMoves(s: State, a: Action, w: Wid)
    requires w in s.workers && WorkerStep(s, a, w).Some?
    ensures var s' := WorkerStep(s, a, w).value;
            && s'.callers == s.callers && s'.missed == s.missed
            && w in s'.workers && s'.workers == s.workers[w := s'.workers[w]]
            && s'.queued - s.queued == |s'.queue| - |s.queue|
            && s'.waiting - s.waiting == One(IsWaiting(s'.workers[w])) - One(IsWaiting(s.workers[w]))
            && |s'.queue| <= |s.queue|
            && (s'.queue != [] ==> |s'.queue| - |s.queue| <= One(IsServer(s'.workers[w])) - One(IsServer(s.workers[w])))
  {
  }

  lemma WorkerCounts(s: State, a: Action, w: Wid)
    requires CountersOk(s) && w in s.workers && WorkerStep(s, a, w).Some?
    ensures CountersOk(WorkerStep(s, a, w).value)
  {
    hide WorkerStep;
    WorkerMoves(s, a, w);
    WaitingUpdate(s.workers, w, WorkerStep(s, a, w).value.workers[w]);
  }

  lemma WorkerElastic(s: State, a: Action, w: Wid)
    requires MutexOk(s) && CountersOk(s) && ElasticOk(s) && w in s.workers && WorkerStep(s, a, w).Some?
    ensures ElasticOk(WorkerStep(s, a, w).value)
  {
    var s' := WorkerStep(s, a, w).value;
    WorkerMoves(s, a, w);
    ServersUpdate(s.workers, w, s'.workers[w]);
    WaitingUpdate(s.workers, w, s'.workers[w]);
    assert SignalDue(s') == SignalDue(s);
    WorkerKeepsWaiting(s, a, w);
    hide WorkerStep, Servers, WaitingWorkers, Promisers, MutexOk, SignalDue;
  }

  /** A worker moves only with the mutex free or its own, so no signal is due while it holds it. */
  lemma WorkerKeepsWaiting(s: State, a: Action, w: Wid)
    requires MutexOk(s) && w in s.workers && WorkerStep(s, a, w).Some?
    ensures var s' := WorkerStep(s, a, w).value;
            SignalDue(s) ==> IsWaiting(s'.workers[w]) == IsWaiting(s.workers[w]) && s'.queue == s.queue
  {
  }

  lemma WorkerCounters(s: State, a: Action, w: Wid)
    requires MutexOk(s) && CountersOk(s) && ElasticOk(s) && w in s.workers && WorkerStep(s, a, w).Some?
    ensures var s' := WorkerStep(s, a, w).value; MutexOk(s') && CountersOk(s') && ElasticOk(s')
  {
    hide WorkerStep, MutexOk, CountersOk, ElasticOk;
    WorkerMutex(s, a, w);
    WorkerCounts(s, a, w);
    WorkerElastic(s, a, w);
  }

  lemma ClaimPlaces(s: State, w: Wid)
    requires PlacesOk(s) && w in s.workers && WorkerStep(s, WClaim(w), w).Some?
    ensures PlacesOk(WorkerStep(s, WClaim(w), w).value)
  {
    var s', b := WorkerStep(s, WClaim(w), w).value, s.queue[0];
    assert PlaceOk(s, b);
    assert s.queue == [b] + s'.queue && b !in s'.queue;
    forall c | c in s'.callers
      ensures PlaceOk(s', c)
    {
      assert PlaceOk(s, c);
    }
  }

  lemma FinishPlaces(s: State, w: Wid)
    requires PlacesOk(s) && w in s.workers && WorkerStep(s, WFinish(w), w).Some?
    ensures PlacesOk(WorkerStep(s, WFinish(w), w).value)
  {
  }

  /** The worker steps that move no call. */
  lemma IdleWorkerPlaces(s: State, a: Action, w: Wid)
    requires PlacesOk(s) && w in s.workers && WorkerStep(s, a, w).Some? && !a.WClaim? && !a.WFinish?
    ensures PlacesOk(WorkerStep(s, a, w).value)
  {
    var s' := WorkerStep(s, a, w).value;
    assert s'.at == s.at && s'.queue == s.queue && s'.ran == s.ran && s'.callers == s.callers;
    forall c | c in s'.callers
      ensures PlaceOk(s', c)
    {
      assert PlaceOk(s, c);
    }
  }

  lemma SameStep(s: State, a: Action, w: Wid)
    requires w in s.workers
    ensures a.WClaim? ==> WorkerStep(s, a, w) == WorkerStep(s, WClaim(w), w)
    ensures a.WFinish? ==> WorkerStep(s, a, w) == WorkerStep(s, WFinish(w), w)
  {
  }

  lemma WorkerPlaces(s: State, a: Action, w: Wid)
    requires PlacesOk(s) && w in s.workers && WorkerStep(s, a, w).Some?
    ensures PlacesOk(WorkerStep(s, a, w).value)
  {
    hide WorkerStep, PlacesOk;
    SameStep(s, a, w);
    if a.WClaim? {
      ClaimPlaces(s, w);
    } else if a.WFinish? {
      FinishPlaces(s, w);
    } else {
      IdleWorkerPlaces(s, a, w);
    }
  }

  // ----- preservation: caller steps

  predicate Locks(a: Action) {
    a.CLock? || a.CRelock?
  }

  lemma CallerLocks(s: State, a: Action, c: Call)
    requires MutexOk(s) && c in s.callers && CallerStep(s, a, c).Some? && Locks(a)
    ensures MutexOk(CallerStep(s, a, c).value)
  {
  }

  lemma CallerUnlocks(s: State, a: Action, c: Call)
    requires MutexOk(s) && c in s.callers && CallerStep(s, a, c).Some? && !Locks(a)
    ensures MutexOk(CallerStep(s, a, c).value)
  {
    hide Remove;
  }

  lemma CallerMutex(s: State, a: Action, c: Call)
    requires MutexOk(s) && c in s.callers && CallerStep(s, a, c).Some?
    ensures MutexOk(CallerStep(s, a, c).value)
  {
    hide CallerStep, MutexOk;
    if Locks(a) { CallerLocks(s, a, c); } else { CallerUnlocks(s, a, c); }
  }

  lemma CallerCounters(s: State, a: Action, c: Call)
    requires CountersOk(s) && c in s.callers && CallerStep(s, a, c).Some?
    ensures CountersOk(CallerStep(s, a, c).value)
  {
    var s' := CallerStep(s, a, c).value;
    if a.CSignal? || a.CSpawn? { WaitingUpdate(s.workers, a.w, s'.workers[a.w]); }
  }

  /** Only the mutex holder can owe a signal. */
  lemma SignalDueIs(s: State, c: Call)
    requires MutexOk(s) && c in s.callers && s.mu == Some(ByCaller(c))
    ensures SignalDue(s) <==> s.callers[c] == Enqueued(false)
  {
  }

  lemma EnqueueElastic(s: State, c: Call)
    requires MutexOk(s) && CountersOk(s) && ElasticOk(s) && c in s.callers && s.callers[c].Locked?
    ensures ElasticOk(CallerStep(s, CEnqueue(c), c).value)
  {
    var s' := CallerStep(s, CEnqueue(c), c).value;
    PromisersUpdate(s.callers, c, s'.callers[c]);
    SignalDueIs(s, c);
    assert SignalDue(s') <==> s'.callers[c] == Enqueued(false);
  }

  /** With no worker parked, every waiting worker is already on its way back. */
  lemma NobodyParked(s: State)
    requires forall w :: w in s.workers ==> !s.workers[w].Parked?
    ensures |WaitingWorkers(s.workers)| <= |Servers(s.workers)|
  {
    assert WaitingWorkers(s.workers) <= Servers(s.workers);
    Subset(WaitingWorkers(s.workers), Servers(s.workers));
  }

  lemma Subset(x: set<Wid>, y: set<Wid>)
    requires x <= y
    ensures |x| <= |y|
  {
    assert y == x + (y - x);
  }

  lemma SignalElastic(s: State, a: Action, c: Call)
    requires MutexOk(s) && CountersOk(s) && ElasticOk(s) && c in s.callers && s.callers[c].Enqueued?
    requires (a.CSignal? || a.CSignalNobody?) && CallerStep(s, a, c).Some?
    ensures ElasticOk(CallerStep(s, a, c).value)
  {
    var s' := CallerStep(s, a, c).value;
    PromisersUpdate(s.callers, c, s'.callers[c]);
    SignalDueIs(s, c);
    assert !SignalDue(s');
    if a.CSignal? {
      ServersUpdate(s.workers, a.w, s'.workers[a.w]);
    } else {
      NobodyParked(s);
    }
  }

  /** The remaining caller steps: a promise is passed on, kept, or written off as missed. */
  lemma PromiseElastic(s: State, a: Action, c: Call)
    requires MutexOk(s) && CountersOk(s) && ElasticOk(s) && c in s.callers && CallerStep(s, a, c).Some?
    requires !a.CEnqueue? && !a.CSignal? && !a.CSignalNobody? && !a.CSpawn?
    ensures ElasticOk(CallerStep(s, a, c).value)
  {
    var s' := CallerStep(s, a, c).value;
    PromisersUpdate(s.callers, c, s'.callers[c]);
    SignalDueSame(s, s', c);
  }

  /** A promise kept: the new worker serves in place of the promise. */
  lemma SpawnElastic(s: State, a: Action, c: Call)
    requires MutexOk(s) && CountersOk(s) && ElasticOk(s) && c in s.callers && CallerStep(s, a, c).Some? && a.CSpawn?
    ensures ElasticOk(CallerStep(s, a, c).value)
  {
    var s' := CallerStep(s, a, c).value;
    PromisersUpdate(s.callers, c, s'.callers[c]);
    ServersUpdate(s.workers, a.w, s'.workers[a.w]);
    WaitingUpdate(s.workers, a.w, s'.workers[a.w]);
    SignalDueSame(s, s', c);
  }

  lemma SignalDueSame(s: State, s': State, c: Call)
    requires c in s.callers && c in s'.callers && s'.callers == s.callers[c := s'.callers[c]]
    requires s.callers[c] != Enqueued(false) && s'.callers[c] != Enqueued(false)
    ensures SignalDue(s') <==> SignalDue(s)
  {
    assert SignalDue(s') <==> SignalDue(s) by {
      if SignalDue(s) {
        var d :| d in s.callers && s.callers[d] == Enqueued(false);
        assert d != c && s'.callers[d] == Enqueued(false);
      }
    }
  }

  lemma CallerElastic(s: State, a: Action, c: Call)
    requires MutexOk(s) && CountersOk(s) && ElasticOk(s) && c in s.callers && CallerStep(s, a, c).Some?
    ensures ElasticOk(CallerStep(s, a, c).value)
  {
    if a.CEnqueue? {
      EnqueueElastic(s, c);
    } else if a.CSignal? || a.CSignalNobody? {
      SignalElastic(s, a, c);
    } else if a.CSpawn? {
      SpawnElastic(s, a, c);
    } else {
      PromiseElastic(s, a, c);
    }
  }

  lemma {:induction false} RemoveFacts(q: seq<Call>, c: Call)
    requires Distinct(q)
    ensures Distinct(Remove(q, c)) && (forall x :: x in Remove(q, c) <==> x in q && x != c)
  {
    if q != [] && q[0] != c {
      var rest := Remove(q[1..], c);
      RemoveFacts(q[1..], c);
      assert q[0] !in rest;
      assert Remove(q, c) == [q[0]] + rest;
      assert Distinct([q[0]] + rest);
    }
  }

  lemma UnlinkPlaces(s: State, c: Call)
    requires PlacesOk(s) && c in s.callers && CallerStep(s, CUnlink(c), c).Some?
    ensures PlacesOk(CallerStep(s, CUnlink(c), c).value)
  {
    if c in s.queue { ReclaimPlaces(s, c); } else { MissPlaces(s, c); }
  }

  lemma MissPlaces(s: State, c: Call)
    requires PlacesOk(s) && c in s.callers && s.callers[c].Unlinking? && c !in s.queue
    ensures PlacesOk(CallerStep(s, CUnlink(c), c).value)
  {
    var s' := CallerStep(s, CUnlink(c), c).value;
    forall d | d in s'.callers
      ensures PlaceOk(s', d)
    {
      assert PlaceOk(s, d);
    }
  }

  lemma ReclaimPlaces(s: State, c: Call)
    requires PlacesOk(s) && c in s.callers && s.callers[c].Unlinking? && c in s.queue
    ensures PlacesOk(CallerStep(s, CUnlink(c), c).value)
  {
    hide Remove;
    var s' := CallerStep(s, CUnlink(c), c).value;
    RemoveFacts(s.queue, c);
    forall d | d in s'.callers
      ensures PlaceOk(s', d)
    {
      assert PlaceOk(s, d);
    }
  }

  lemma EnqueuePlaces(s: State, c: Call)
    requires PlacesOk(s) && c in s.callers && CallerStep(s, CEnqueue(c), c).Some?
    ensures PlacesOk(CallerStep(s, CEnqueue(c), c).value)
  {
  }

  lemma InlinePlaces(s: State, c: Call)
    requires PlacesOk(s) && c in s.callers && CallerStep(s, CRunInline(c), c).Some?
    ensures PlacesOk(CallerStep(s, CRunInline(c), c).value)
  {
  }

  /** The caller steps that move no call. */
  ghost predicate Idle(a: Action) { !a.CUnlink? && !a.CEnqueue? && !a.CRunInline? }

  lemma IdleMoves(s: State, a: Action, c: Call)
    requires Idle(a) && c in s.callers && CallerStep(s, a, c).Some?
    ensures var s' := CallerStep(s, a, c).value;
            && s'.queue == s.queue && s'.at == s.at && s'.ran == s.ran && c in s'.callers
            && s'.callers == s.callers[c := s'.callers[c]]
            && (forall w :: w in s.workers && s.workers[w].Busy? ==> w in s'.workers && s'.workers[w] == s.workers[w])
            && (forall w :: w in s'.workers && s'.workers[w].Busy? ==> w in s.workers && s'.workers[w] == s.workers[w])
            && (c in s.at && PlaceOk(s, c) ==> PlaceOk(s', c))
  {
  }

  lemma IdlePlaces(s: State, a: Action, c: Call)
    requires PlacesOk(s) && Idle(a) && c in s.callers && CallerStep(s, a, c).Some?
    ensures PlacesOk(CallerStep(s, a, c).value)
  {
    hide CallerStep;
    var s' := CallerStep(s, a, c).value;
    IdleMoves(s, a, c);
    forall d | d in s'.callers
      ensures PlaceOk(s', d)
    {
      assert PlaceOk(s, d);
    }
  }

  lemma CallerPlaces(s: State, a: Action, c: Call)
    requires PlacesOk(s) && c in s.callers && CallerStep(s, a, c).Some?
    ensures PlacesOk(CallerStep(s, a, c).value)
  {
    hide PlacesOk;
    if a.CUnlink? {
      assert CallerStep(s, a, c) == CallerStep(s, CUnlink(c), c);
      UnlinkPlaces(s, c);
    } else if a.CEnqueue? {
      assert CallerStep(s, a, c) == CallerStep(s, CEnqueue(c), c);
      EnqueuePlaces(s, c);
    } else if a.CRunInline? {
      assert CallerStep(s, a, c) == CallerStep(s, CRunInline(c), c);
      InlinePlaces(s, c);
    } else {
      IdlePlaces(s, a, c);
    }
  }

  lemma CallerFailures(s: State, a: Action, c: Call)
    requires FailuresOk(s) && c in s.callers && CallerStep(s, a, c).Some?
    ensures FailuresOk(CallerStep(s, a, c).value)
  {
  }

  lemma WorkerFailures(s: State, a: Action, w: Wid)
    requires FailuresOk(s) && w in s.workers && WorkerStep(s, a, w).Some?
    ensures FailuresOk(WorkerStep(s, a, w).value)
  {
  }

  lemma StepKeepsInv(s: State, a: Action)
    requires Inv(s) && Next(s, a).Some?
    ensures Inv(Next(s, a).value)
  {
    hide WorkerStep, CallerStep, MutexOk, CountersOk, ElasticOk, PlacesOk, FailuresOk;
    if OfWorker(a) {
      WorkerCounters(s, a, a.w);
      WorkerPlaces(s, a, a.w);
      WorkerFailures(s, a, a.w);
    } else {
      CallerMutex(s, a, a.c);
      CallerCounters(s, a, a.c);
      CallerElastic(s, a, a.c);
      CallerPlaces(s, a, a.c);
      CallerFailures(s, a, a.c);
    }
  }

  lemma InitInv(s: State)
    requires Init(s)
    ensures Inv(s)
  {
  }

  lemma {:induction false} RunKeepsInv(run: seq<State>, acts: seq<Action>, i: nat)
    requires Run(run, acts) && i < |run|
    ensures Inv(run[i])
  {
    if i == 0 {
      InitInv(run[0]);
    } else {
      RunKeepsInv(run, acts, i - 1);
      assert Next(run[i - 1], acts[i - 1]) == Some(run[i - 1 + 1]);
      StepKeepsInv(run[i - 1], acts[i - 1]);
    }
  }

  lemma NoSignalDue(s: State)
    requires MutexOk(s) && s.mu == None
    ensures !SignalDue(s)
  {
  }

  // ----- theorems

  /** Elasticity, in every run: whenever the mutex is free, the queued calls are no more than the
      workers about to look at the queue, the workers promised, and the failed creations that found
      their call already taken.  No queued call is left to a busy worker. */
  lemma Elasticity(run: seq<State>, acts: seq<Action>, i: nat)
    requires Run(run, acts) && i < |run| && run[i].mu == None
    ensures |run[i].queue| <= |Servers(run[i].workers)| + |Promisers(run[i].callers)| + run[i].missed
    ensures forall w <- Servers(run[i].workers) :: run[i].workers[w].Spawned? || run[i].workers[w].Woken?
    ensures run[i].failed == 0 ==> run[i].missed == 0
  {
    RunKeepsInv(run, acts, i);
    var s := run[i];
    NoSignalDue(s);
    forall w | w in Servers(s.workers)
      ensures s.workers[w].Spawned? || s.workers[w].Woken?
    {
      assert !HoldsMutexW(s.workers[w]);
    }
  }

  /** Each call runs at most once, and has run exactly once when its caller returns. */
  lemma EachCallRunsOnce(run: seq<State>, acts: seq<Action>, i: nat, c: Call)
    requires Run(run, acts) && i < |run| && c in run[i].callers
    ensures run[i].ran[c] <= 1
    ensures run[i].callers[c].Done? ==> run[i].ran[c] == 1
  {
    RunKeepsInv(run, acts, i);
    assert PlaceOk(run[i], c);
  }

  /** A continuation that empties the queue without any busy worker finishing. */
  ghost predicate Drains(s: State, run: seq<State>, acts: seq<Action>) {
    && Follows(run, acts) && run[0] == s && run[|run| - 1].queue == []
    && forall i :: 0 <= i < |acts| ==> !acts[i].WFinish?
  }

  lemma PrependStep(s: State, a: Action, run: seq<State>, acts: seq<Action>)
    requires Next(s, a).Some? && !a.WFinish? && Drains(Next(s, a).value, run, acts)
    ensures Drains(s, [s] + run, [a] + acts)
  {
  }

  lemma FreshWid(ws: set<Wid>) returns (n: Wid)
    ensures n !in ws
  {
    n := 0;
    var rest := ws;
    while rest != {}
      invariant rest <= ws && forall w :: w in ws && w !in rest ==> w < n
      decreases rest
    {
      var w :| w in rest;
      rest := rest - {w};
      n := if w >= n then w + 1 else n;
    }
  }

  ghost predicate Ready(s: State) { Inv(s) && s.failed == 0 }

  /** A worker at the head of its loop takes the next call. */
  lemma DrainFromTop(s: State, w: Wid) returns (run: seq<State>, acts: seq<Action>)
    requires Ready(s) && s.queue != [] && w in s.workers && s.workers[w].Top?
    ensures Drains(s, run, acts)
    decreases |s.queue|, 0
  {
    var a := WClaim(w);
    StepKeepsInv(s, a);
    run, acts := DrainsWithoutBusyWorkers(Next(s, a).value);
    PrependStep(s, a, run, acts);
    run, acts := [s] + run, [a] + acts;
  }

  lemma DrainFromWorker(s: State, w: Wid) returns (run: seq<State>, acts: seq<Action>)
    requires Ready(s) && s.queue != [] && s.mu == None
    requires w in s.workers && (s.workers[w].Spawned? || s.workers[w].Woken?)
    ensures Drains(s, run, acts)
    decreases |s.queue|, 1
  {
    if s.workers[w].Spawned? {
      var a := WLock(w);
      StepKeepsInv(s, a);
      run, acts := DrainFromTop(Next(s, a).value, w);
      PrependStep(s, a, run, acts);
      run, acts := [s] + run, [a] + acts;
    } else {
      var a, b := WReacquire(w), WResume(w);
      StepKeepsInv(s, a);
      var s1 := Next(s, a).value;
      StepKeepsInv(s1, b);
      run, acts := DrainFromTop(Next(s1, b).value, w);
      PrependStep(s1, b, run, acts);
      PrependStep(s, a, [s1] + run, [b] + acts);
      run, acts := [s] + ([s1] + run), [a] + ([b] + acts);
    }
  }

  /** No queued call depends on a busy worker: while creation never fails, from every reachable
      state with the mutex free there is a continuation that claims every queued call although no
      worker busy with a call ever finishes it. */
  lemma DrainsWithoutBusyWorkers(s: State) returns (run: seq<State>, acts: seq<Action>)
    requires Ready(s) && s.mu == None
    ensures Drains(s, run, acts)
    decreases |s.queue|, 2
  {
    if s.queue == [] {
      run, acts := [s], [];
    } else if exists w :: w in Servers(s.workers) {
      var w :| w in Servers(s.workers);
      assert !HoldsMutexW(s.workers[w]);
      run, acts := DrainFromWorker(s, w);
    } else {
      var c := SomePromise(s);
      var w := FreshWid(s.workers.Keys);
      var a := CSpawn(c, w);
      StepKeepsInv(s, a);
      run, acts := DrainFromWorker(Next(s, a).value, w);
      PrependStep(s, a, run, acts);
      run, acts := [s] + run, [a] + acts;
    }
  }

  lemma SomePromise(s: State) returns (c: Call)
    requires Ready(s) && s.mu == None && s.queue != [] && Servers(s.workers) == {}
    ensures c in s.callers && s.callers[c].NeedSpawn?
  {
    NoSignalDue(s);
    assert Promisers(s.callers) != {};
    c :| c in Promisers(s.callers);
    assert !HoldsMutexC(s.callers[c]);
  }

  // ----- a failed creation can leave a call to a busy worker

  lemma Extend(run: seq<State>, acts: seq<Action>, a: Action) returns (run': seq<State>, acts': seq<Action>)
    requires Run(run, acts) && Next(run[|run| - 1], a).Some?
    ensures Run(run', acts') && run'[|run'| - 1] == Next(run[|run| - 1], a).value
  {
    run', acts' := run + [Next(run[|run| - 1], a).value], acts + [a];
    forall i | 0 <= i < |acts'|
      ensures Next(run'[i], acts'[i]) == Some(run'[i + 1])
    {
      if i < |acts| { assert Next(run[i], acts[i]) == Some(run[i + 1]); }
    }
  }

  /** Call c is submitted while no worker waits: its caller is left owing a worker. */
  /** The four states a submission goes through with no worker about. */
  lemma SubmitStates(s: State, c: Call) returns (s1: State, s2: State, s3: State, s4: State)
    requires s.mu == None && s.waiting == 0 && s.workers == map[] && s.queued >= 0
    requires c in s.callers && s.callers[c].Fresh?
    ensures Next(s, CLock(c)) == Some(s1) && Next(s1, CEnqueue(c)) == Some(s2)
    ensures Next(s2, CSignalNobody(c)) == Some(s3) && Next(s3, CUnlock(c)) == Some(s4)
    ensures s4 == s.(queue := s.queue + [c], queued := s.queued + 1, at := s.at[c := Queued],
                     callers := s.callers[c := NeedSpawn])
  {
    s1 := s.(mu := Some(ByCaller(c)), callers := s.callers[c := Locked]);
    s2 := s1.(queue := s.queue + [c], queued := s.queued + 1, at := s.at[c := Queued],
              callers := s1.callers[c := Enqueued(true)]);
    s3 := s2.(callers := s2.callers[c := Signalled(true)]);
    s4 := s3.(mu := None, callers := s3.callers[c := NeedSpawn]);
    assert s4.callers == s.callers[c := NeedSpawn];
  }

  lemma Submit(run: seq<State>, acts: seq<Action>, c: Call) returns (run': seq<State>, acts': seq<Action>)
    requires Run(run, acts)
    requires var s := run[|run| - 1];
             && s.mu == None && s.waiting == 0 && s.workers == map[] && s.queued >= 0
             && c in s.callers && s.callers[c].Fresh?
    ensures Run(run', acts')
    ensures var s := run[|run| - 1];
            run'[|run'| - 1] == s.(queue := s.queue + [c], queued := s.queued + 1, at := s.at[c := Queued],
                                   callers := s.callers[c := NeedSpawn])
  {
    var s1, s2, s3, s4 := SubmitStates(run[|run| - 1], c);
    hide Next, Init;
    run', acts' := Extend(run, acts, CLock(c));
    run', acts' := Extend(run', acts', CEnqueue(c));
    run', acts' := Extend(run', acts', CSignalNobody(c));
    run', acts' := Extend(run', acts', CUnlock(c));
  }

  /** Caller c gets the pool's first worker, which claims the oldest call. */
  lemma SpawnAndClaim(run: seq<State>, acts: seq<Action>, c: Call) returns (run': seq<State>, acts': seq<Action>)
    requires Run(run, acts)
    requires var s := run[|run| - 1];
             s.mu == None && s.workers == map[] && s.queue != [] && c in s.callers && s.callers[c].NeedSpawn?
    ensures Run(run', acts')
    ensures var s := run[|run| - 1];
            run'[|run'| - 1] == s.(queue := s.queue[1..], queued := s.queued - 1, workers := map[0 := Busy(s.queue[0])],
                                   callers := s.callers[c := Waiting], at := s.at[s.queue[0] := AtWorker(0)])
  {
    run', acts' := Extend(run, acts, CSpawn(c, 0));
    run', acts' := Extend(run', acts', WLock(0));
    run', acts' := Extend(run', acts', WClaim(0));
    assert map[0 := Spawned][0 := Top][0 := Busy(run[|run| - 1].queue[0])] == map[0 := Busy(run[|run| - 1].queue[0])];
  }

  /** Caller c's creation fails and its call is already claimed. */
  lemma FailAndMiss(run: seq<State>, acts: seq<Action>, c: Call) returns (run': seq<State>, acts': seq<Action>)
    requires Run(run, acts)
    requires var s := run[|run| - 1]; s.mu == None && c !in s.queue && c in s.callers && s.callers[c].NeedSpawn?
    ensures Run(run', acts')
    ensures var s := run[|run| - 1];
            run'[|run'| - 1] == s.(callers := s.callers[c := Waiting], failed := s.failed + 1, missed := s.missed + 1)
  {
    run', acts' := Extend(run, acts, CSpawnFail(c));
    run', acts' := Extend(run', acts', CRelock(c));
    run', acts' := Extend(run', acts', CUnlink(c));
    assert run[|run| - 1].callers[c := SpawnFailed][c := Unlinking][c := Waiting]
        == run[|run| - 1].callers[c := Waiting];
  }

  /** The slack in Elasticity is real.  Calls 0 and 1 are queued; the worker created for 1 claims 0,
      and the creation for 0 fails: call 1 is queued, no worker is on its way and none is promised,
      so it depends on the worker busy with call 0. */
  lemma FailedCreationCanStarve(s: State) returns (run: seq<State>, acts: seq<Action>)
    requires Init(s) && s.callers == map[0 := Fresh, 1 := Fresh]
    ensures Run(run, acts)
    ensures var s' := run[|run| - 1];
            && s'.queue == [1] && s'.mu == None && s'.missed == 1
            && s'.workers == map[0 := Busy(0)] && Servers(s'.workers) == {} && Promisers(s'.callers) == {}
  {
    run, acts := [s], [];
    run, acts := Submit(run, acts, 0);
    run, acts := Submit(run, acts, 1);
    assert run[|run| - 1].queue == [0, 1];
    run, acts := SpawnAndClaim(run, acts, 1);
    run, acts := FailAndMiss(run, acts, 0);
  }
}
