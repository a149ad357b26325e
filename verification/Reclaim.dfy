/** Epoch-based reclamation (runtime/march_reclaim.c) as a state machine.

    Any number of threads announce epochs in slots they claim, recycle and release, resolve
    pointers to linked objects, retire unlinked ones and poll the retire list.  Each load, store
    and read-modify-write of shared memory is one step; in particular going online is a load of
    the global epoch and a separate store, and a poll reads the slots one at a time.

    The retire list appears here as the sequence it implements; RetireList.dfy refines the array
    with head, length and capacity to that sequence. */
module Reclaim {
  import opened Wrappers

  type Ptr = nat
  type Tid = nat

  const BATCH := 64

  /** A slot of the push-only list: epoch 0 means offline. */
  datatype Slot = Slot(epoch: nat, owned: bool)

  /** A lower bound over announced epochs; Inf when no slot is online. */
  datatype Bound = Inf | Fin(n: nat) {
    predicate Exceeds(e: nat) { Inf? || e < n }
    function Meet(e: nat): Bound { if e != 0 && Exceeds(e) then Fin(e) else this }
  }

  datatype Entry = Entry(p: Ptr, stamp: nat)

  /** Where a retired object is between the fetch_add that stamped it and its free. */
  datatype Place = AtHand(t: Tid) | Queue | Batch(t: Tid)

  datatype Status = Linked | Unlinked | Retired(stamp: nat, place: Place) | Freed

  datatype PC =
    | Ready
    | NeedSlot(depth: nat)                 // my_slot found none
    | Loading(depth: nat)                  // announce_online, before the load of g_epoch
    | Storing(e: nat, depth: nat)          // announce_online, before the store
    | QStoring(e: nat)                     // quiescent, before the store
    | Releasing                            // slot_release, between its two stores
    | RetireLocked(p: Ptr) | RetireStamped(p: Ptr, e: nat)
    | PollLocked | Scanning(i: nat, m: Bound) | Taken(batch: seq<Entry>) | Freeing(batch: seq<Entry>)

  /** `holds` are the pointers resolved in the current critical section; `on` says whether a
      scheduler thread is between online and offline. */
  datatype Thread = Thread(slot: Option<nat>, depth: nat, qsbr: bool, on: bool, pc: PC, holds: set<Ptr>)

  datatype State = State(
    epoch: nat, slots: seq<Slot>, ths: map<Tid, Thread>,
    objs: map<Ptr, Status>, ret: seq<Entry>, mu: Option<Tid>)

  // ----- what a thread does on its own slot

  datatype Local =
    | EnterNested | EnterOuter | LoadEpoch | StoreEpoch | ExitNested | ExitOuter
    | Suspend | Resume(d: nat) | Attach | QuiescentLoad | QuiescentStore | Offline | Online | Detach | ThreadExit

  /** The thread after `a`, and what it stored in its slot, if anything; None when `a` is not
      enabled (the source dies on the misuse it detects). */
  function LocalStep(th: Thread, a: Local, g: nat): Option<(Thread, Option<nat>)> {
    match a
    case EnterNested =>
      if th.pc.Ready? && (th.depth > 0 || th.qsbr) then Some((th.(depth := th.depth + 1), None)) else None
    case EnterOuter =>
      if th.pc.Ready? && th.depth == 0 && !th.qsbr then Some((Announce(th, 1), None)) else None
    case LoadEpoch =>
      if th.pc.Loading? then Some((th.(pc := Storing(g, th.pc.depth)), None)) else None
    case StoreEpoch =>
      if th.pc.Storing? then Some((th.(pc := Ready, depth := th.pc.depth, on := th.qsbr), Some(th.pc.e))) else None
    case ExitNested =>
      if th.pc.Ready? && th.depth > 0 && (th.depth > 1 || th.qsbr)
      then Some((th.(depth := th.depth - 1), None)) else None
    case ExitOuter =>
      if th.pc.Ready? && th.depth == 1 && !th.qsbr then Some((th.(depth := 0, holds := {}), Some(0))) else None
    case Suspend =>
      if th.pc.Ready? && th.depth > 0
      then Some(if th.qsbr then (th.(depth := 0), None) else (th.(depth := 0, holds := {}), Some(0)))
      else None
    case Resume(d) =>
      if th.pc.Ready? && d > 0 && th.depth == 0
      then Some((if th.qsbr then th.(depth := d) else Announce(th, d), None))
      else None
    case Attach =>
      if th.pc.Ready? && th.depth == 0 && !th.qsbr then Some((Announce(th, 0).(qsbr := true), None)) else None
    case QuiescentLoad =>
      if th.pc.Ready? && th.depth == 0 && th.qsbr && th.slot.Some?
      then Some((th.(pc := QStoring(g), holds := {}), None)) else None
    case QuiescentStore =>
      if th.pc.QStoring? then Some((th.(pc := Ready, on := true), Some(th.pc.e))) else None
    case Offline =>
      if th.pc.Ready? && th.depth == 0 && th.qsbr && th.slot.Some?
      then Some((th.(on := false, holds := {}), Some(0))) else None
    case Online =>
      // called after an idle sleep, that is after Offline
      if th.pc.Ready? && th.depth == 0 && th.qsbr && !th.on then Some((Announce(th, 0), None)) else None
    case Detach =>
      if th.pc.Ready? && th.depth == 0 && th.qsbr && th.slot.Some?
      then Some((th.(qsbr := false, on := false, holds := {}), Some(0))) else None
    case ThreadExit =>
      if th.pc.Ready? && th.slot.Some?
      then Some((th.(pc := Releasing, depth := 0, qsbr := false, on := false, holds := {}), Some(0))) else None
  }

  /** Start announcing, claiming a slot first when the thread has none. */
  function Announce(th: Thread, d: nat): Thread {
    th.(pc := if th.slot.Some? then Loading(d) else NeedSlot(d))
  }

  // ----- steps

  datatype Action =
    | DoLocal(t: Tid, a: Local)
    | DoReleaseOwned(t: Tid) | DoClaimOld(t: Tid, k: nat) | DoClaimNew(t: Tid)
    | DoLink(p: Ptr) | DoUnlink(p: Ptr) | DoResolve(t: Tid, p: Ptr)
    | DoRetireLock(t: Tid, p: Ptr) | DoStamp(t: Tid) | DoAppend(t: Tid)
    | DoPollLock(t: Tid) | DoScanStart(t: Tid) | DoScan(t: Tid) | DoTake(t: Tid)
    | DoPollEmpty(t: Tid) | DoPollUnlock(t: Tid) | DoFree(t: Tid) | DoPollReturn(t: Tid)

  ghost predicate HasSlot(s: State, th: Thread) {
    th.slot.Some? && th.slot.value < |s.slots|
  }

  ghost predicate LocalAction(s: State, s': State, t: Tid, a: Local)
    requires t in s.ths
  {
    var th := s.ths[t];
    var r := LocalStep(th, a, s.epoch);
    && r.Some?
    && if r.value.1.None? then s' == s.(ths := s.ths[t := r.value.0])
       else && HasSlot(s, th)
            && var k := th.slot.value;
               s' == s.(ths := s.ths[t := r.value.0], slots := s.slots[k := s.slots[k].(epoch := r.value.1.value)])
  }

  /** slot_claim and slot_release. */
  ghost predicate SlotAction(s: State, s': State, a: Action) {
    match a
    case DoReleaseOwned(t) =>
      && t in s.ths && s.ths[t].pc.Releasing? && HasSlot(s, s.ths[t])
      && var k := s.ths[t].slot.value;
         s' == s.(ths := s.ths[t := s.ths[t].(pc := Ready, slot := None)],
                  slots := s.slots[k := s.slots[k].(owned := false)])
    case DoClaimOld(t, k) =>
      && t in s.ths && s.ths[t].pc.NeedSlot? && k < |s.slots| && !s.slots[k].owned
      && s' == s.(ths := s.ths[t := s.ths[t].(pc := Loading(s.ths[t].pc.depth), slot := Some(k))],
                  slots := s.slots[k := s.slots[k].(owned := true)])
    case DoClaimNew(t) =>
      && t in s.ths && s.ths[t].pc.NeedSlot?
      && s' == s.(ths := s.ths[t := s.ths[t].(pc := Loading(s.ths[t].pc.depth), slot := Some(|s.slots|))],
                  slots := s.slots + [Slot(0, true)])
    case _ => false
  }

  /** A reader may resolve only inside a critical section. */
  ghost predicate Critical(th: Thread) {
    th.pc.Ready? && if th.qsbr then th.on else th.depth > 0
  }

  ghost predicate ObjectAction(s: State, s': State, a: Action) {
    match a
    case DoLink(p) => p !in s.objs && s' == s.(objs := s.objs[p := Linked])
    case DoUnlink(p) => p in s.objs && s.objs[p] == Linked && s' == s.(objs := s.objs[p := Unlinked])
    case DoResolve(t, p) =>
      && t in s.ths && Critical(s.ths[t]) && p in s.objs && s.objs[p] == Linked
      && s' == s.(ths := s.ths[t := s.ths[t].(holds := s.ths[t].holds + {p})])
    case _ => false
  }

  ghost predicate RetireAction(s: State, s': State, a: Action) {
    match a
    case DoRetireLock(t, p) =>
      && t in s.ths && s.ths[t].pc.Ready? && s.mu == None
      && s' == s.(mu := Some(t), ths := s.ths[t := s.ths[t].(pc := RetireLocked(p))])
    case DoStamp(t) =>
      && t in s.ths && s.ths[t].pc.RetireLocked?
      && var p := s.ths[t].pc.p;
         && p in s.objs && s.objs[p] == Unlinked
         && s' == s.(epoch := s.epoch + 1, objs := s.objs[p := Retired(s.epoch, AtHand(t))],
                     ths := s.ths[t := s.ths[t].(pc := RetireStamped(p, s.epoch))])
    case DoAppend(t) =>
      // the append and the unlock: nothing between them is visible to another thread
      && t in s.ths && s.ths[t].pc.RetireStamped?
      && var p, e := s.ths[t].pc.p, s.ths[t].pc.e;
         s' == s.(ret := s.ret + [Entry(p, e)], objs := s.objs[p := Retired(e, Queue)], mu := None,
                  ths := s.ths[t := s.ths[t].(pc := Ready)])
    case _ => false
  }

  /** The freeable entries: the longest prefix of at most BATCH stamps below m. */
  function Freeable(ret: seq<Entry>, m: Bound, room: nat): (n: nat)
    ensures n <= |ret| && n <= room
    ensures forall i :: 0 <= i < n ==> m.Exceeds(ret[i].stamp)
    ensures n < |ret| && n < room ==> !m.Exceeds(ret[n].stamp)
  {
    if room == 0 || ret == [] || !m.Exceeds(ret[0].stamp) then 0
    else 1 + Freeable(ret[1..], m, room - 1)
  }

  ghost function Rebook(objs: map<Ptr, Status>, batch: seq<Entry>, place: Place): map<Ptr, Status> {
    map p | p in objs :: if exists i :: 0 <= i < |batch| && batch[i].p == p && objs[p] == Retired(batch[i].stamp, Queue)
                         then Retired(objs[p].stamp, place) else objs[p]
  }

  ghost predicate PollAction(s: State, s': State, a: Action) {
    match a
    case DoPollLock(t) =>
      && t in s.ths && s.ths[t].pc.Ready? && s.mu == None
      && s' == s.(mu := Some(t), ths := s.ths[t := s.ths[t].(pc := PollLocked)])
    case DoPollEmpty(t) =>
      && t in s.ths && s.ths[t].pc.PollLocked? && s.ret == []
      && s' == s.(ths := s.ths[t := s.ths[t].(pc := Taken([]))])
    case DoScanStart(t) =>
      && t in s.ths && s.ths[t].pc.PollLocked? && s.ret != []
      && s' == s.(ths := s.ths[t := s.ths[t].(pc := Scanning(|s.slots|, Inf))])
    case DoScan(t) =>
      // newest slot first, as the list is walked; slots pushed meanwhile are not seen
      && t in s.ths && s.ths[t].pc.Scanning? && 0 < s.ths[t].pc.i <= |s.slots|
      && var i := s.ths[t].pc.i - 1;
         s' == s.(ths := s.ths[t := s.ths[t].(pc := Scanning(i, s.ths[t].pc.m.Meet(s.slots[i].epoch)))])
    case DoTake(t) =>
      && t in s.ths && s.ths[t].pc.Scanning? && s.ths[t].pc.i == 0
      && var n := Freeable(s.ret, s.ths[t].pc.m, BATCH);
         s' == s.(ret := s.ret[n..], objs := Rebook(s.objs, s.ret[..n], Batch(t)),
                  ths := s.ths[t := s.ths[t].(pc := Taken(s.ret[..n]))])
    case DoPollUnlock(t) =>
      && t in s.ths && s.ths[t].pc.Taken?
      && s' == s.(mu := None, ths := s.ths[t := s.ths[t].(pc := Freeing(s.ths[t].pc.batch))])
    case DoFree(t) =>
      && t in s.ths && s.ths[t].pc.Freeing? && s.ths[t].pc.batch != []
      && var batch := s.ths[t].pc.batch;
         s' == s.(objs := s.objs[batch[0].p := Freed], ths := s.ths[t := s.ths[t].(pc := Freeing(batch[1..]))])
    case DoPollReturn(t) =>
      && t in s.ths && s.ths[t].pc.Freeing? && s.ths[t].pc.batch == []
      && s' == s.(ths := s.ths[t := s.ths[t].(pc := Ready)])
    case _ => false
  }

  ghost predicate Step(s: State, s': State, a: Action) {
    || (a.DoLocal? && a.t in s.ths && LocalAction(s, s', a.t, a.a))
    || SlotAction(s, s', a)
    || ObjectAction(s, s', a)
    || RetireAction(s, s', a)
    || PollAction(s, s', a)
  }

  ghost predicate Init(s: State) {
    && s.epoch == 1 && s.slots == [] && s.objs == map[] && s.ret == [] && s.mu == None
    && forall t <- s.ths :: s.ths[t] == Thread(None, 0, false, false, Ready, {})
  }

  ghost predicate Run(run: seq<State>, acts: seq<Action>) {
    && |run| == |acts| + 1
    && Init(run[0])
    && forall i :: 0 <= i < |acts| ==> Step(run[i], run[i + 1], acts[i])
  }

  // ----- invariant

  ghost predicate Announcing(pc: PC) {
    pc.NeedSlot? || pc.Loading? || pc.Storing? || pc.QStoring? || pc.Releasing?
  }

  ghost predicate Locked(pc: PC) {
    pc.RetireLocked? || pc.RetireStamped? || pc.PollLocked? || pc.Scanning? || pc.Taken?
  }

  /** An epoch on its way into a slot is a real one, no later than g. */
  ghost predicate EpochOk(th: Thread, g: nat) {
    (th.pc.Storing? ==> 1 <= th.pc.e <= g) && (th.pc.QStoring? ==> 1 <= th.pc.e <= g)
  }

  /** Announced or loaded epochs never run ahead of the global one. */
  ghost predicate EpochsOk(s: State) {
    && 1 <= s.epoch
    && (forall k :: 0 <= k < |s.slots| ==> s.slots[k].epoch <= s.epoch)
    && (forall t <- s.ths :: EpochOk(s.ths[t], s.epoch))
  }

  /** A thread's slot is its own. */
  ghost predicate SlotOk(s: State, th: Thread) {
    && (th.slot.Some? ==> th.slot.value < |s.slots| && s.slots[th.slot.value].owned)
    && (th.pc.Loading? || th.pc.Storing? || th.pc.QStoring? || th.pc.Releasing? ==> th.slot.Some?)
    && (Announcing(th.pc) ==> th.holds == {})
    && (th.pc.Releasing? ==> th.depth == 0 && !th.qsbr)
    && ((if th.qsbr then th.on else th.depth > 0) && !Announcing(th.pc) ==>
          th.slot.Some? && s.slots[th.slot.value].epoch > 0)
    && (th.holds != {} ==> if th.qsbr then th.on else th.depth > 0)
  }

  ghost predicate SlotsOk(s: State) {
    && (forall t <- s.ths :: SlotOk(s, s.ths[t]))
    && (forall t, u :: t in s.ths && u in s.ths && t != u && s.ths[t].slot.Some? ==> s.ths[t].slot != s.ths[u].slot)
  }

  /** A held pointer is not freed, and if it is retired its holder still announces an epoch no
      later than the stamp. */
  ghost predicate HoldOk(s: State, th: Thread, p: Ptr) {
    && HasSlot(s, th)
    && p in s.objs
    && s.objs[p] != Freed
    && (s.objs[p].Retired? ==> s.slots[th.slot.value].epoch <= s.objs[p].stamp)
    && (s.objs[p].Retired? ==> !s.objs[p].place.Batch?)
  }

  ghost predicate HoldsOk(s: State) {
    forall t, p :: t in s.ths && p in s.ths[t].holds ==> HoldOk(s, s.ths[t], p)
  }

  ghost predicate Increasing(q: seq<Entry>) {
    forall i, j :: 0 <= i < j < |q| ==> q[i].stamp < q[j].stamp
  }

  ghost predicate Booked(s: State, q: seq<Entry>, place: Place) {
    forall i :: 0 <= i < |q| ==> q[i].p in s.objs && s.objs[q[i].p] == Retired(q[i].stamp, place)
  }

  /** The retire list and the batches hold exactly what the objects' places say, in stamp order. */
  ghost predicate QueueOk(s: State) {
    && Increasing(s.ret) && Booked(s, s.ret, Queue)
    && (forall i :: 0 <= i < |s.ret| ==> s.ret[i].stamp < s.epoch)
    && (forall t <- s.ths :: ThreadQueueOk(s, t))
  }

  ghost predicate ThreadQueueOk(s: State, t: Tid)
    requires t in s.ths
  {
    match s.ths[t].pc
    case Taken(b) => Increasing(b) && Booked(s, b, Batch(t))
    case Freeing(b) => Increasing(b) && Booked(s, b, Batch(t))
    case RetireStamped(p, e) =>
      && p in s.objs && s.objs[p] == Retired(e, AtHand(t)) && e < s.epoch
      && forall i :: 0 <= i < |s.ret| ==> s.ret[i].stamp < e
    case _ => true
  }

  ghost predicate MutexOk(s: State) {
    forall t <- s.ths :: Locked(s.ths[t].pc) <==> s.mu == Some(t)
  }

  /** Everything a scan has passed is no later than its bound: a queued object still held is held
      through a slot not yet read, or one at or above the bound. */
  ghost predicate ScanOk(s: State, i: nat, m: Bound) {
    && i <= |s.slots|
    && forall u, p :: u in s.ths && p in s.ths[u].holds && HasSlot(s, s.ths[u])
         && p in s.objs && s.objs[p].Retired? && s.objs[p].place.Queue?
         ==> s.ths[u].slot.value < i || !m.Exceeds(s.slots[s.ths[u].slot.value].epoch)
  }

  ghost predicate ScansOk(s: State) {
    forall t <- s.ths :: s.ths[t].pc.Scanning? ==> ScanOk(s, s.ths[t].pc.i, s.ths[t].pc.m)
  }

  ghost predicate Inv(s: State) {
    EpochsOk(s) && SlotsOk(s) && HoldsOk(s) && QueueOk(s) && MutexOk(s) && ScansOk(s)
  }

  // ----- preservation, one group of steps at a time

  /** What every step on a thread's own slot respects. */
  lemma LocalFacts(th: Thread, a: Local, g: nat)
    requires LocalStep(th, a, g).Some?
    ensures var (th', w) := LocalStep(th, a, g).value;
            && th'.slot == th.slot && th'.holds <= th.holds
            && (w.Some? ==> th'.holds == {} || th.pc.Storing? || th.pc.QStoring?)
            && !Locked(th.pc) && !Locked(th'.pc)
            && !th.pc.Freeing? && !th'.pc.Freeing?
  {
  }

  lemma LocalEpoch(th: Thread, a: Local, g: nat)
    requires LocalStep(th, a, g).Some? && 1 <= g && EpochOk(th, g)
    ensures var (th', w) := LocalStep(th, a, g).value; EpochOk(th', g) && (w.Some? ==> w.value <= g)
  {
  }

  lemma LocalEpochs(s: State, s': State, t: Tid, a: Local)
    requires EpochsOk(s) && t in s.ths && LocalAction(s, s', t, a)
    ensures EpochsOk(s')
  {
    hide LocalStep;
    LocalEpoch(s.ths[t], a, s.epoch);
  }

  lemma LocalOwnSlot(s: State, s': State, t: Tid, a: Local)
    requires t in s.ths && EpochOk(s.ths[t], s.epoch) && SlotOk(s, s.ths[t]) && LocalAction(s, s', t, a)
    ensures SlotOk(s', s'.ths[t])
  {
  }

  lemma LocalSlots(s: State, s': State, t: Tid, a: Local)
    requires EpochsOk(s) && SlotsOk(s) && t in s.ths && LocalAction(s, s', t, a)
    ensures EpochsOk(s') && SlotsOk(s')
  {
    LocalFacts(s.ths[t], a, s.epoch);
    LocalEpochs(s, s', t, a);
    LocalOwnSlot(s, s', t, a);
    hide LocalStep, EpochsOk;
    forall u | u in s'.ths && u != t
      ensures SlotOk(s', s'.ths[u])
    {
      assert SlotOk(s, s.ths[u]);
    }
  }

  lemma LocalHolds(s: State, s': State, t: Tid, a: Local)
    requires SlotsOk(s) && HoldsOk(s) && ScansOk(s) && t in s.ths && LocalAction(s, s', t, a)
    ensures HoldsOk(s') && ScansOk(s')
  {
    hide LocalStep;
    LocalFacts(s.ths[t], a, s.epoch);
    assert SlotOk(s, s.ths[t]);
    forall u, p | u in s'.ths && p in s'.ths[u].holds
      ensures HoldOk(s', s'.ths[u], p)
    {
      assert p in s.ths[u].holds && HoldOk(s, s.ths[u], p);
    }
    forall u | u in s'.ths && s'.ths[u].pc.Scanning?
      ensures ScanOk(s', s'.ths[u].pc.i, s'.ths[u].pc.m)
    {
      assert u != t && ScanOk(s, s.ths[u].pc.i, s.ths[u].pc.m);
    }
  }

  lemma LocalQueue(s: State, s': State, t: Tid, a: Local)
    requires QueueOk(s) && MutexOk(s) && t in s.ths && LocalAction(s, s', t, a)
    ensures QueueOk(s') && MutexOk(s')
  {
    LocalFacts(s.ths[t], a, s.epoch);
    forall u | u in s'.ths
      ensures ThreadQueueOk(s', u)
    {
      assert ThreadQueueOk(s, u);
    }
  }

  lemma SlotActionEpochs(s: State, s': State, a: Action)
    requires EpochsOk(s) && SlotAction(s, s', a)
    ensures EpochsOk(s')
  {
  }

  lemma SlotActionSlots(s: State, s': State, a: Action)
    requires SlotsOk(s) && SlotAction(s, s', a)
    ensures SlotsOk(s')
  {
    assert SlotOk(s, s.ths[a.t]);
    forall u | u in s'.ths
      ensures SlotOk(s', s'.ths[u])
    {
      assert SlotOk(s, s.ths[u]);
    }
  }

  lemma SlotActionHolds(s: State, s': State, a: Action)
    requires SlotsOk(s) && HoldsOk(s) && ScansOk(s) && SlotAction(s, s', a)
    ensures HoldsOk(s') && ScansOk(s')
  {
    assert SlotOk(s, s.ths[a.t]);
    forall u, p | u in s'.ths && p in s'.ths[u].holds
      ensures HoldOk(s', s'.ths[u], p)
    {
      assert p in s.ths[u].holds && HoldOk(s, s.ths[u], p);
    }
    forall u | u in s'.ths && s'.ths[u].pc.Scanning?
      ensures ScanOk(s', s'.ths[u].pc.i, s'.ths[u].pc.m)
    {
      assert u != a.t && ScanOk(s, s.ths[u].pc.i, s.ths[u].pc.m);
    }
  }

  lemma SlotActionQueue(s: State, s': State, a: Action)
    requires QueueOk(s) && MutexOk(s) && SlotAction(s, s', a)
    ensures QueueOk(s') && MutexOk(s')
  {
    forall u | u in s'.ths
      ensures ThreadQueueOk(s', u)
    {
      assert ThreadQueueOk(s, u);
    }
  }

  lemma ObjectSlots(s: State, s': State, a: Action)
    requires EpochsOk(s) && SlotsOk(s) && ObjectAction(s, s', a)
    ensures EpochsOk(s') && SlotsOk(s')
  {
  }

  lemma ObjectQueue(s: State, s': State, a: Action)
    requires QueueOk(s) && MutexOk(s) && ObjectAction(s, s', a)
    ensures QueueOk(s') && MutexOk(s')
  {
  }

  lemma ObjectHolds(s: State, s': State, a: Action)
    requires SlotsOk(s) && HoldsOk(s) && ObjectAction(s, s', a)
    ensures HoldsOk(s')
  {
    if a.DoResolve? { assert SlotOk(s, s.ths[a.t]); }
    forall u, p | u in s'.ths && p in s'.ths[u].holds
      ensures HoldOk(s', s'.ths[u], p)
    {
      if p in s.ths[u].holds { assert HoldOk(s, s.ths[u], p); }
    }
  }

  lemma ObjectScans(s: State, s': State, a: Action)
    requires ScansOk(s) && ObjectAction(s, s', a)
    ensures ScansOk(s')
  {
    hide ScanOk;
    forall u | u in s'.ths && s'.ths[u].pc.Scanning?
      ensures ScanOk(s', s'.ths[u].pc.i, s'.ths[u].pc.m)
    {
      ObjectScan(s, s', a, s.ths[u].pc.i, s.ths[u].pc.m);
    }
  }

  /** No step here makes a queued object, or lets anyone hold one. */
  lemma ObjectScan(s: State, s': State, a: Action, i: nat, m: Bound)
    requires ScanOk(s, i, m) && ObjectAction(s, s', a)
    ensures ScanOk(s', i, m)
  {
  }

  /** Thread t moved between counters that concern neither its slot nor its pointers. */
  ghost predicate CounterOnly(s: State, s': State, t: Tid) {
    && t in s.ths && t in s'.ths
    && s'.ths == s.ths[t := s.ths[t].(pc := s'.ths[t].pc)]
    && !Announcing(s.ths[t].pc) && !Announcing(s'.ths[t].pc)
    && s'.slots == s.slots && s.epoch <= s'.epoch
  }

  lemma CounterOnlySlots(s: State, s': State, t: Tid)
    requires EpochsOk(s) && SlotsOk(s) && CounterOnly(s, s', t)
    ensures EpochsOk(s') && SlotsOk(s')
  {
  }

  /** Changing only the status of objects nobody holds, or leaving them all, keeps the holders. */
  lemma CounterOnlyHolds(s: State, s': State, t: Tid)
    requires HoldsOk(s) && CounterOnly(s, s', t)
    requires forall u, p :: u in s.ths && p in s.ths[u].holds && p in s.objs ==> p in s'.objs && s'.objs[p] == s.objs[p]
    ensures HoldsOk(s')
  {
  }

  lemma OnlyLockerScans(s: State, t: Tid)
    requires MutexOk(s) && (s.mu == None || s.mu == Some(t))
    ensures forall u <- s.ths :: u != t ==> !s.ths[u].pc.Scanning? && !s.ths[u].pc.RetireStamped? && !s.ths[u].pc.Taken?
  {
  }

  lemma RetireSlots(s: State, s': State, a: Action)
    requires EpochsOk(s) && SlotsOk(s) && RetireAction(s, s', a)
    ensures EpochsOk(s') && SlotsOk(s')
  {
    hide EpochsOk, SlotsOk;
    CounterOnlySlots(s, s', a.t);
  }

  lemma RetireQueue(s: State, s': State, a: Action)
    requires QueueOk(s) && MutexOk(s) && RetireAction(s, s', a)
    ensures QueueOk(s') && MutexOk(s')
  {
    OnlyLockerScans(s, a.t);
    assert ThreadQueueOk(s, a.t);
    forall u | u in s'.ths
      ensures ThreadQueueOk(s', u)
    {
      assert ThreadQueueOk(s, u);
    }
  }

  /** Stamping leaves every holder announcing at or below the stamp; no scan runs meanwhile. */
  lemma RetireHolds(s: State, s': State, a: Action)
    requires EpochsOk(s) && HoldsOk(s) && QueueOk(s) && MutexOk(s) && RetireAction(s, s', a)
    ensures HoldsOk(s') && ScansOk(s')
  {
    OnlyLockerScans(s, a.t);
    assert ThreadQueueOk(s, a.t);
    forall u, p | u in s'.ths && p in s'.ths[u].holds
      ensures HoldOk(s', s'.ths[u], p)
    {
      assert p in s.ths[u].holds && HoldOk(s, s.ths[u], p);
    }
  }

  ghost predicate MovesCounter(a: Action) {
    a.DoPollLock? || a.DoPollEmpty? || a.DoScanStart? || a.DoScan? || a.DoPollUnlock? || a.DoPollReturn?
  }

  lemma PollCounterMoves(s: State, s': State, a: Action)
    requires PollAction(s, s', a) && MovesCounter(a)
    ensures CounterOnly(s, s', a.t) && s'.objs == s.objs && s'.ret == s.ret && s'.epoch == s.epoch
  {
  }

  lemma PollCounterMutex(s: State, s': State, a: Action)
    requires MutexOk(s) && PollAction(s, s', a) && MovesCounter(a)
    ensures MutexOk(s')
  {
  }

  lemma PollCounterQueue(s: State, s': State, a: Action)
    requires QueueOk(s) && PollAction(s, s', a) && MovesCounter(a)
    ensures QueueOk(s')
  {
    assert ThreadQueueOk(s, a.t);
    forall u | u in s'.ths
      ensures ThreadQueueOk(s', u)
    {
      assert ThreadQueueOk(s, u);
    }
  }

  /** Reading one more slot: an online holder behind it pulls the bound down to its epoch. */
  lemma ScanReadsSlot(s: State, i: nat, m: Bound)
    requires SlotsOk(s) && ScanOk(s, i, m) && 0 < i
    ensures ScanOk(s, i - 1, m.Meet(s.slots[i - 1].epoch))
  {
    forall v, p | v in s.ths && p in s.ths[v].holds
      ensures HasSlot(s, s.ths[v]) && s.slots[s.ths[v].slot.value].epoch > 0
    {
      assert SlotOk(s, s.ths[v]);
    }
  }

  lemma ScanFrame(s: State, s': State, t: Tid, i: nat, m: Bound)
    requires CounterOnly(s, s', t) && s'.objs == s.objs && ScanOk(s, i, m)
    ensures ScanOk(s', i, m)
  {
  }

  lemma PollCounterScans(s: State, s': State, a: Action)
    requires SlotsOk(s) && ScansOk(s) && PollAction(s, s', a) && MovesCounter(a)
    ensures ScansOk(s')
  {
    hide PollAction, ScanOk, SlotOk;
    PollCounterMoves(s, s', a);
    forall u | u in s'.ths && s'.ths[u].pc.Scanning?
      ensures ScanOk(s', s'.ths[u].pc.i, s'.ths[u].pc.m)
    {
      if u == a.t { ScannerMoves(s, s', a); }
      ScanFrame(s, s', a.t, s'.ths[u].pc.i, s'.ths[u].pc.m);
    }
  }

  /** The scanning thread itself: it starts at the newest slot, or has just read one. */
  lemma ScannerMoves(s: State, s': State, a: Action)
    requires SlotsOk(s) && ScansOk(s) && PollAction(s, s', a) && MovesCounter(a)
    requires a.t in s'.ths && s'.ths[a.t].pc.Scanning?
    ensures ScanOk(s, s'.ths[a.t].pc.i, s'.ths[a.t].pc.m)
  {
    hide SlotOk;
    if a.DoScan? { ScanReadsSlot(s, s.ths[a.t].pc.i, s.ths[a.t].pc.m); }
  }

  /** Rebooking the first n entries moves exactly them. */
  lemma RebookFacts(s: State, n: nat, place: Place)
    requires QueueOk(s) && n <= |s.ret| && place != Queue
    ensures var objs := Rebook(s.objs, s.ret[..n], place);
            && objs.Keys == s.objs.Keys
            && (forall i :: 0 <= i < n ==> objs[s.ret[i].p] == Retired(s.ret[i].stamp, place))
            && (forall i :: n <= i < |s.ret| ==> objs[s.ret[i].p] == s.objs[s.ret[i].p])
            && (forall p <- objs :: objs[p] != s.objs[p] ==>
                  s.objs[p].Retired? && s.objs[p].place == Queue && exists i :: 0 <= i < n && p == s.ret[i].p)
  {
    var batch := s.ret[..n];
    var objs := Rebook(s.objs, batch, place);
    forall i | 0 <= i < n
      ensures objs[s.ret[i].p] == Retired(s.ret[i].stamp, place)
    {
      assert batch[i] == s.ret[i];
    }
    forall p | p in objs && objs[p] != s.objs[p]
      ensures s.objs[p].Retired? && s.objs[p].place == Queue && exists i :: 0 <= i < n && p == s.ret[i].p
    {
      var i :| 0 <= i < |batch| && batch[i].p == p && s.objs[p] == Retired(batch[i].stamp, Queue);
      assert batch[i] == s.ret[i];
    }
  }

  /** No thread holds an entry that the finished scan lets go of. */
  lemma TakenNotHeld(s: State, t: Tid, u: Tid, p: Ptr, i: nat)
    requires HoldsOk(s) && QueueOk(s) && ScansOk(s)
    requires t in s.ths && s.ths[t].pc.Scanning? && s.ths[t].pc.i == 0
    requires u in s.ths && p in s.ths[u].holds
    requires i < Freeable(s.ret, s.ths[t].pc.m, BATCH)
    ensures s.ret[i].p != p
  {
    assert HoldOk(s, s.ths[u], p);
    assert ScanOk(s, 0, s.ths[t].pc.m);
    assert s.objs[s.ret[i].p] == Retired(s.ret[i].stamp, Queue);
    assert s.ths[t].pc.m.Exceeds(s.ret[i].stamp);
  }

  lemma TakeHolds(s: State, s': State, t: Tid)
    requires HoldsOk(s) && QueueOk(s) && MutexOk(s) && ScansOk(s) && PollAction(s, s', DoTake(t))
    ensures HoldsOk(s') && ScansOk(s')
  {
    var n := Freeable(s.ret, s.ths[t].pc.m, BATCH);
    RebookFacts(s, n, Batch(t));
    OnlyLockerScans(s, t);
    forall u, p | u in s.ths && p in s.ths[u].holds && p in s.objs
      ensures p in s'.objs && s'.objs[p] == s.objs[p]
    {
      forall i | 0 <= i < n
        ensures s.ret[i].p != p
      {
        TakenNotHeld(s, t, u, p, i);
      }
    }
    CounterOnlyHolds(s, s', t);
  }

  lemma TakeMutex(s: State, s': State, t: Tid)
    requires MutexOk(s) && PollAction(s, s', DoTake(t))
    ensures MutexOk(s')
  {
    hide Freeable, Rebook;
  }

  lemma TakeQueue(s: State, s': State, t: Tid)
    requires QueueOk(s) && MutexOk(s) && PollAction(s, s', DoTake(t))
    ensures QueueOk(s')
  {
    hide Rebook, ThreadQueueOk;
    RebookFacts(s, Freeable(s.ret, s.ths[t].pc.m, BATCH), Batch(t));
    forall u | u in s'.ths
      ensures ThreadQueueOk(s', u)
    {
      TakeThread(s, s', t, u);
    }
  }

  /** The batch taken goes to the thread that polls; what any other thread has is elsewhere. */
  lemma TakeThread(s: State, s': State, t: Tid, u: Tid)
    requires QueueOk(s) && MutexOk(s) && PollAction(s, s', DoTake(t)) && u in s'.ths
    ensures ThreadQueueOk(s', u)
  {
    hide Rebook;
    RebookFacts(s, Freeable(s.ret, s.ths[t].pc.m, BATCH), Batch(t));
    OnlyLockerScans(s, t);
    assert ThreadQueueOk(s, u);
  }

  lemma FreeQueue(s: State, s': State, t: Tid)
    requires QueueOk(s) && MutexOk(s) && PollAction(s, s', DoFree(t))
    ensures QueueOk(s') && MutexOk(s')
  {
    assert ThreadQueueOk(s, t);
    assert s.objs[s.ths[t].pc.batch[0].p].place == Batch(t);
    forall u | u in s'.ths
      ensures ThreadQueueOk(s', u)
    {
      assert ThreadQueueOk(s, u);
    }
  }

  /** The entry being freed sits in a batch, and nothing in a batch is held. */
  lemma FreeHolds(s: State, s': State, t: Tid)
    requires HoldsOk(s) && QueueOk(s) && ScansOk(s) && PollAction(s, s', DoFree(t))
    ensures HoldsOk(s') && ScansOk(s')
  {
    assert ThreadQueueOk(s, t);
    assert s.objs[s.ths[t].pc.batch[0].p].place == Batch(t);
    forall u, p | u in s.ths && p in s.ths[u].holds && p in s.objs
      ensures p in s'.objs && s'.objs[p] == s.objs[p]
    {
      assert HoldOk(s, s.ths[u], p);
    }
    CounterOnlyHolds(s, s', t);
    forall u | u in s'.ths && s'.ths[u].pc.Scanning?
      ensures ScanOk(s', s'.ths[u].pc.i, s'.ths[u].pc.m)
    {
      assert u != t && ScanOk(s, s.ths[u].pc.i, s.ths[u].pc.m);
    }
  }

  lemma PollKeepsInv(s: State, s': State, a: Action)
    requires Inv(s) && PollAction(s, s', a)
    ensures Inv(s')
  {
    hide EpochsOk, SlotsOk, HoldsOk, QueueOk, MutexOk, ScansOk;
    CounterOnlySlots(s, s', a.t);
    if a.DoTake? {
      TakeHolds(s, s', a.t);
      TakeMutex(s, s', a.t);
      TakeQueue(s, s', a.t);
    } else if a.DoFree? {
      FreeHolds(s, s', a.t);
      FreeQueue(s, s', a.t);
    } else {
      CounterOnlyHolds(s, s', a.t);
      PollCounterMutex(s, s', a);
      PollCounterQueue(s, s', a);
      PollCounterScans(s, s', a);
    }
  }

  lemma StepKeepsInv(s: State, s': State, a: Action)
    requires Inv(s) && Step(s, s', a)
    ensures Inv(s')
  {
    hide EpochsOk, SlotsOk, HoldsOk, QueueOk, MutexOk, ScansOk;
    hide LocalAction, SlotAction, ObjectAction, RetireAction, PollAction;
    if a.DoLocal? && a.t in s.ths && LocalAction(s, s', a.t, a.a) {
      LocalSlots(s, s', a.t, a.a);
      LocalHolds(s, s', a.t, a.a);
      LocalQueue(s, s', a.t, a.a);
    } else if SlotAction(s, s', a) {
      SlotActionEpochs(s, s', a);
      SlotActionSlots(s, s', a);
      SlotActionHolds(s, s', a);
      SlotActionQueue(s, s', a);
    } else if ObjectAction(s, s', a) {
      ObjectSlots(s, s', a);
      ObjectHolds(s, s', a);
      ObjectScans(s, s', a);
      ObjectQueue(s, s', a);
    } else if RetireAction(s, s', a) {
      RetireSlots(s, s', a);
      RetireHolds(s, s', a);
      RetireQueue(s, s', a);
    } else {
      PollKeepsInv(s, s', a);
    }
  }

  lemma {:induction false} RunKeepsInv(run: seq<State>, acts: seq<Action>, i: nat)
    requires Run(run, acts) && i < |run|
    ensures Inv(run[i])
  {
    if i > 0 {
      RunKeepsInv(run, acts, i - 1);
      StepKeepsInv(run[i - 1], run[i], acts[i - 1]);
    }
  }

  // ----- theorems

  /** No run ever frees an object that some thread resolved in its current critical section. */
  lemma NeverFreedWhileHeld(run: seq<State>, acts: seq<Action>, i: nat, t: Tid, p: Ptr)
    requires Run(run, acts) && i < |run|
    requires t in run[i].ths && p in run[i].ths[t].holds
    ensures p in run[i].objs && run[i].objs[p] != Freed
  {
    RunKeepsInv(run, acts, i);
    assert HoldOk(run[i], run[i].ths[t], p);
  }

  /** A free always finds its object retired and not yet freed, and no step ever revives a freed
      object: each retired object is freed at most once. */
  lemma FreedOnceAndForAll(run: seq<State>, acts: seq<Action>, i: nat, p: Ptr)
    requires Run(run, acts) && i < |acts|
    requires p in run[i].objs
    ensures p in run[i + 1].objs
    ensures run[i].objs[p] == Freed ==> run[i + 1].objs[p] == Freed
    ensures run[i].objs[p] != Freed && run[i + 1].objs[p] == Freed ==>
              run[i].objs[p].Retired? && run[i].objs[p].place.Batch? && acts[i] == DoFree(run[i].objs[p].place.t)
  {
    RunKeepsInv(run, acts, i);
    var s, s', a := run[i], run[i + 1], acts[i];
    assert Step(s, s', a);
    if a.DoFree? && PollAction(s, s', a) { assert ThreadQueueOk(s, a.t); }
    if a.DoAppend? && RetireAction(s, s', a) { assert ThreadQueueOk(s, a.t); }
  }

  /** A thread inside a critical section is always visible to a scan: its slot is its own and
      announces a non-zero epoch. */
  lemma CriticalIsAnnounced(run: seq<State>, acts: seq<Action>, i: nat, t: Tid)
    requires Run(run, acts) && i < |run| && t in run[i].ths && Critical(run[i].ths[t])
    ensures HasSlot(run[i], run[i].ths[t]) && 0 < run[i].slots[run[i].ths[t].slot.value].epoch <= run[i].epoch
  {
    RunKeepsInv(run, acts, i);
    assert SlotOk(run[i], run[i].ths[t]);
  }
}
