/** The multi-producer single-consumer mailbox of runtime/march_message.c.

    Producers push nodes onto a Treiber stack with a compare-and-swap loop; the owner takes the
    whole stack at once, reverses it into its pending list and pops from there, and falls back to
    the saved messages.  Nodes live in a heap of addresses: a freed address may be handed out again
    while a producer still holds it as the value it expects in the inbox.

    The fields from `inboxL` on are history and abstraction: the cells of each linked list, and the
    messages sent (in the order of successful swaps), delivered, saved and returned from the save
    queue.  No step's choice depends on them. */
module Mailbox {
  type Addr = nat   // 0 is NULL
  type Msg = int
  type Tid = nat

  /** Which list a node is on (auxiliary). */
  datatype Where = Private(t: Tid) | InInbox | InStack | InPending | InSaved

  datatype Node = Node(msg: Msg, next: Addr, where: Where)

  datatype Producer = Ready | Have(node: Addr) | Loaded(node: Addr, seen: Addr)

  datatype Owner = Free | Flip(stack: Addr) | Take(flipped: bool)

  datatype Cell = Cell(addr: Addr, msg: Msg)

  datatype State = State(
    heap: map<Addr, Node>, inbox: Addr, pending: Addr, saveHead: Addr, saveTail: Addr,
    producers: map<Tid, Producer>, owner: Owner,
    inboxL: seq<Cell>, stackL: seq<Cell>, pendingL: seq<Cell>, savedL: seq<Cell>,
    sent: seq<Msg>, delivered: seq<Msg>, saved: seq<Msg>, unsaved: seq<Msg>)

  datatype Action =
    | Alloc(t: Tid, a: Addr, m: Msg) | Load(t: Tid) | Swap(t: Tid) | SwapSpurious(t: Tid)
    | PopStart | FlipNext | FlipDone | TakePending | TakeSaved | TakeNothing | Save(a: Addr, m: Msg)

  ghost predicate ProducerStep(s: State, s': State, a: Action) {
    match a
    case Alloc(t, p, m) =>
      && t in s.producers && s.producers[t].Ready? && p != 0 && p !in s.heap
      && s' == s.(heap := s.heap[p := Node(m, 0, Private(t))], producers := s.producers[t := Have(p)])
    case Load(t) =>
      // load the inbox head and link the still private node to it
      && t in s.producers && s.producers[t].Have? && s.producers[t].node in s.heap
      && var p := s.producers[t].node;
         s' == s.(heap := s.heap[p := s.heap[p].(next := s.inbox)], producers := s.producers[t := Loaded(p, s.inbox)])
    case Swap(t) =>
      && t in s.producers && s.producers[t].Loaded? && s.producers[t].node in s.heap
      && var Loaded(p, seen) := s.producers[t];
         if s.inbox == seen
         then s' == s.(inbox := p, heap := s.heap[p := s.heap[p].(where := InInbox)],
                       producers := s.producers[t := Ready],
                       inboxL := [Cell(p, s.heap[p].msg)] + s.inboxL, sent := s.sent + [s.heap[p].msg])
         else s' == s.(producers := s.producers[t := Have(p)])
    case SwapSpurious(t) =>
      && t in s.producers && s.producers[t].Loaded?
      && s' == s.(producers := s.producers[t := Have(s.producers[t].node)])
    case _ => false
  }

  ghost function Relabel(h: map<Addr, Node>, cells: seq<Cell>, w: Where): map<Addr, Node> {
    map p | p in h :: if exists i :: 0 <= i < |cells| && cells[i].addr == p then h[p].(where := w) else h[p]
  }

  ghost predicate OwnerStep(s: State, s': State, a: Action) {
    match (a, s.owner)
    case (PopStart, Free) =>
      // with nothing pending, exchange the inbox for NULL
      if s.pending != 0 then s' == s.(owner := Take(false))
      else s' == s.(inbox := 0, owner := Flip(s.inbox), stackL := s.inboxL, inboxL := [],
                    heap := Relabel(s.heap, s.inboxL, InStack))
    case (FlipNext, Flip(st)) =>
      && st != 0 && st in s.heap && s.stackL != []
      && s' == s.(heap := s.heap[st := s.heap[st].(next := s.pending, where := InPending)], pending := st,
                  owner := Flip(s.heap[st].next), pendingL := [s.stackL[0]] + s.pendingL, stackL := s.stackL[1..])
    case (FlipDone, Flip(st)) =>
      st == 0 && s' == s.(owner := Take(true))
    case (TakePending, Take(_)) =>
      && s.pending != 0 && s.pending in s.heap && s.pendingL != []
      && s' == s.(pending := s.heap[s.pending].next, heap := s.heap - {s.pending}, owner := Free,
                  delivered := s.delivered + [s.heap[s.pending].msg], pendingL := s.pendingL[1..])
    case (TakeSaved, Take(_)) =>
      && s.pending == 0 && s.saveHead != 0 && s.saveHead in s.heap && s.savedL != []
      && var next := s.heap[s.saveHead].next;
         s' == s.(saveHead := next, saveTail := if next == 0 then 0 else s.saveTail,
                  heap := s.heap - {s.saveHead}, owner := Free,
                  unsaved := s.unsaved + [s.heap[s.saveHead].msg], savedL := s.savedL[1..])
    case (TakeNothing, Take(_)) =>
      s.pending == 0 && s.saveHead == 0 && s' == s.(owner := Free)
    case (Save(p, m), Free) =>
      && p != 0 && p !in s.heap && (s.saveTail != 0 ==> s.saveTail in s.heap)
      && var h := if s.saveTail != 0 then s.heap[s.saveTail := s.heap[s.saveTail].(next := p)] else s.heap;
         s' == s.(heap := h[p := Node(m, 0, InSaved)],
                  saveHead := if s.saveTail != 0 then s.saveHead else p, saveTail := p,
                  saved := s.saved + [m], savedL := s.savedL + [Cell(p, m)])
    case _ => false
  }

  ghost predicate Step(s: State, s': State, a: Action) {
    ProducerStep(s, s', a) || OwnerStep(s, s', a)
  }

  ghost predicate Init(s: State) {
    && s.heap == map[] && s.inbox == s.pending == s.saveHead == s.saveTail == 0 && s.owner == Free
    && (forall t <- s.producers :: s.producers[t] == Ready)
    && s.inboxL == s.stackL == s.pendingL == s.savedL == [] && s.sent == s.delivered == s.saved == s.unsaved == []
  }

  ghost predicate Run(run: seq<State>, acts: seq<Action>) {
    |run| == |acts| + 1 && Init(run[0]) && forall i :: 0 <= i < |acts| ==> Step(run[i], run[i + 1], acts[i])
  }

  // ----- invariant

  /** `cells` is the linked list that starts at head, and all of it is labelled w. */
  ghost predicate ListOk(h: map<Addr, Node>, head: Addr, cells: seq<Cell>, w: Where) {
    && head == (if cells == [] then 0 else cells[0].addr)
    && (forall i :: 0 <= i < |cells| ==> CellOk(h, cells, i, w))
    && (forall i, j :: 0 <= i < j < |cells| ==> cells[i].addr != cells[j].addr)
  }

  ghost predicate CellOk(h: map<Addr, Node>, cells: seq<Cell>, i: nat, w: Where)
    requires i < |cells|
  {
    var p := cells[i].addr;
    p != 0 && p in h && h[p] == Node(cells[i].msg, if i + 1 < |cells| then cells[i + 1].addr else 0, w)
  }

  ghost predicate ListsOk(s: State) {
    && ListOk(s.heap, s.inbox, s.inboxL, InInbox)
    && ListOk(s.heap, if s.owner.Flip? then s.owner.stack else 0, s.stackL, InStack)
    && ListOk(s.heap, s.pending, s.pendingL, InPending)
    && ListOk(s.heap, s.saveHead, s.savedL, InSaved)
    && s.saveTail == (if s.savedL == [] then 0 else s.savedL[|s.savedL| - 1].addr)
  }

  ghost predicate ProducerOk(s: State, t: Tid)
    requires t in s.producers
  {
    match s.producers[t]
    case Ready => true
    case Have(p) => p != 0 && p in s.heap && s.heap[p].where == Private(t)
    case Loaded(p, seen) => p != 0 && p in s.heap && s.heap[p].where == Private(t) && s.heap[p].next == seen
  }

  ghost predicate ProducersOk(s: State) {
    forall t <- s.producers :: ProducerOk(s, t)
  }

  ghost function Msgs(cells: seq<Cell>): seq<Msg> {
    seq(|cells|, i requires 0 <= i < |cells| => cells[i].msg)
  }

  ghost function Rev(cells: seq<Cell>): seq<Msg> {
    if cells == [] then [] else Rev(cells[1..]) + [cells[0].msg]
  }

  /** Nothing is lost, duplicated or reordered: what was delivered, what the owner has taken and
      what is still in the inbox are together the messages sent, in order. */
  ghost predicate OrderOk(s: State) {
    && s.delivered + (Rev(s.stackL) + Msgs(s.pendingL)) + Rev(s.inboxL) == s.sent
    && s.unsaved + Msgs(s.savedL) == s.saved
    && (!s.owner.Flip? ==> s.stackL == [])
  }

  ghost predicate Inv(s: State) { ListsOk(s) && ProducersOk(s) && OrderOk(s) }

  // ----- lists

  /** A list survives any change to nodes that are not on it. */
  lemma ListFrame(h: map<Addr, Node>, h': map<Addr, Node>, head: Addr, cells: seq<Cell>, w: Where)
    requires ListOk(h, head, cells, w)
    requires forall p :: p in h && h[p].where == w ==> p in h' && h'[p] == h[p]
    ensures ListOk(h', head, cells, w)
  {
    forall i | 0 <= i < |cells|
      ensures CellOk(h', cells, i, w)
    {
      assert CellOk(h, cells, i, w);
    }
  }

  lemma ListHead(h: map<Addr, Node>, head: Addr, cells: seq<Cell>, w: Where)
    requires ListOk(h, head, cells, w)
    ensures head == 0 <==> cells == []
    ensures head != 0 ==> head in h
  {
    if cells != [] { assert CellOk(h, cells, 0, w); }
  }

  lemma ListPush(h: map<Addr, Node>, head: Addr, cells: seq<Cell>, w: Where, p: Addr, m: Msg)
    requires ListOk(h, head, cells, w) && p != 0 && (p in h ==> h[p].where != w)
    ensures ListOk(h[p := Node(m, head, w)], p, [Cell(p, m)] + cells, w)
  {
    var h', cells' := h[p := Node(m, head, w)], [Cell(p, m)] + cells;
    forall i | 0 <= i < |cells'|
      ensures CellOk(h', cells', i, w) && (i > 0 ==> cells'[i].addr != p)
    {
      if i > 0 { assert CellOk(h, cells, i - 1, w); }
    }
  }

  /** Dropping the first cell, whatever becomes of its node. */
  lemma ListPop(h: map<Addr, Node>, h': map<Addr, Node>, head: Addr, cells: seq<Cell>, w: Where)
    requires ListOk(h, head, cells, w) && cells != []
    requires forall p :: p in h && p != head ==> p in h' && h'[p] == h[p]
    ensures head in h && ListOk(h', h[head].next, cells[1..], w)
  {
    assert CellOk(h, cells, 0, w);
    forall i | 0 <= i < |cells| - 1
      ensures CellOk(h', cells[1..], i, w)
    {
      assert CellOk(h, cells, i + 1, w);
    }
  }

  lemma ListAppend(h: map<Addr, Node>, head: Addr, cells: seq<Cell>, w: Where, p: Addr, m: Msg)
    requires ListOk(h, head, cells, w) && p != 0 && p !in h && cells != []
    ensures var last := cells[|cells| - 1].addr;
            last in h && ListOk(h[last := h[last].(next := p)][p := Node(m, 0, w)], head, cells + [Cell(p, m)], w)
  {
    var n := |cells|;
    var last := cells[n - 1].addr;
    assert CellOk(h, cells, n - 1, w);
    var h', cells' := h[last := h[last].(next := p)][p := Node(m, 0, w)], cells + [Cell(p, m)];
    forall i | 0 <= i < |cells'|
      ensures CellOk(h', cells', i, w) && (i < n ==> cells'[i].addr != p)
    {
      if i < n { assert CellOk(h, cells, i, w); }
    }
  }

  lemma ListRelabel(h: map<Addr, Node>, head: Addr, cells: seq<Cell>, w: Where, w': Where)
    requires ListOk(h, head, cells, w)
    ensures ListOk(Relabel(h, cells, w'), head, cells, w')
    ensures forall p :: p in h && h[p].where != w ==> Relabel(h, cells, w')[p] == h[p]
  {
    var h' := Relabel(h, cells, w');
    forall i | 0 <= i < |cells|
      ensures CellOk(h', cells, i, w')
    {
      assert CellOk(h, cells, i, w);
    }
    forall p | p in h && h[p].where != w
      ensures h'[p] == h[p]
    {
      forall i | 0 <= i < |cells|
        ensures cells[i].addr != p
      {
        assert CellOk(h, cells, i, w);
      }
    }
  }

  // ----- preservation

  lemma ProducersFrame(s: State, s': State)
    requires ProducersOk(s) && s'.producers == s.producers
    requires forall p :: p in s.heap && s.heap[p].where.Private? ==> p in s'.heap && s'.heap[p] == s.heap[p]
    ensures ProducersOk(s')
  {
    forall t | t in s'.producers
      ensures ProducerOk(s', t)
    {
      assert ProducerOk(s, t);
    }
  }

  lemma ProducerKeepsProducers(s: State, s': State, a: Action)
    requires ProducersOk(s) && ProducerStep(s, s', a)
    ensures ProducersOk(s')
  {
    if a.Alloc? || a.Load? || a.Swap? || a.SwapSpurious? { assert ProducerOk(s, a.t); }
    forall t | t in s'.producers
      ensures ProducerOk(s', t)
    {
      assert ProducerOk(s, t);
    }
  }

  /** The swap succeeds only on the expected head, so the private node already points at the list
      it joins, whatever became of that address meanwhile. */
  lemma ProducerKeepsLists(s: State, s': State, a: Action)
    requires Inv(s) && ProducerStep(s, s', a)
    ensures ListsOk(s')
  {
    if !a.SwapSpurious? { assert ProducerOk(s, a.t); }
    var stack := if s.owner.Flip? then s.owner.stack else 0;
    ListFrame(s.heap, s'.heap, stack, s.stackL, InStack);
    ListFrame(s.heap, s'.heap, s.pending, s.pendingL, InPending);
    ListFrame(s.heap, s'.heap, s.saveHead, s.savedL, InSaved);
    if a.Swap? && s.inbox == s.producers[a.t].seen {
      var p := s.producers[a.t].node;
      ListPush(s.heap, s.inbox, s.inboxL, InInbox, p, s.heap[p].msg);
    } else {
      ListFrame(s.heap, s'.heap, s.inbox, s.inboxL, InInbox);
    }
  }

  lemma ProducerKeepsOrder(s: State, s': State, a: Action)
    requires OrderOk(s) && ProducerStep(s, s', a)
    ensures OrderOk(s')
  {
    if s'.sent != s.sent {
      assert s'.inboxL[1..] == s.inboxL;
      assert Rev(s'.inboxL) == Rev(s.inboxL) + [s'.inboxL[0].msg];
    }
  }

  lemma PopStartKeepsInv(s: State, s': State)
    requires Inv(s) && OwnerStep(s, s', PopStart)
    ensures Inv(s')
  {
    if s.pending == 0 {
      ListHead(s.heap, s.pending, s.pendingL, InPending);
      ListRelabel(s.heap, s.inbox, s.inboxL, InInbox, InStack);
      ListFrame(s.heap, s'.heap, s.pending, s.pendingL, InPending);
      ListFrame(s.heap, s'.heap, s.saveHead, s.savedL, InSaved);
      ProducersFrame(s, s');
      assert Rev(s.stackL) == [] && Msgs(s.pendingL) == [] && Rev(s'.inboxL) == [];
    }
  }

  lemma FlipKeepsInv(s: State, s': State)
    requires Inv(s) && OwnerStep(s, s', FlipNext)
    ensures Inv(s')
  {
    var st := s.owner.stack;
    assert CellOk(s.heap, s.stackL, 0, InStack);
    ListPop(s.heap, s'.heap, st, s.stackL, InStack);
    ListPush(s.heap, s.pending, s.pendingL, InPending, st, s.stackL[0].msg);
    ListFrame(s.heap, s'.heap, s.inbox, s.inboxL, InInbox);
    ListFrame(s.heap, s'.heap, s.saveHead, s.savedL, InSaved);
    ProducersFrame(s, s');
    assert Msgs(s'.pendingL) == [s.stackL[0].msg] + Msgs(s.pendingL);
    assert Rev(s'.stackL) + Msgs(s'.pendingL) == Rev(s.stackL) + Msgs(s.pendingL);
  }

  lemma TakePendingKeepsInv(s: State, s': State)
    requires Inv(s) && OwnerStep(s, s', TakePending)
    ensures Inv(s')
  {
    assert CellOk(s.heap, s.pendingL, 0, InPending);
    ListPop(s.heap, s'.heap, s.pending, s.pendingL, InPending);
    ListFrame(s.heap, s'.heap, s.inbox, s.inboxL, InInbox);
    ListFrame(s.heap, s'.heap, 0, s.stackL, InStack);
    ListFrame(s.heap, s'.heap, s.saveHead, s.savedL, InSaved);
    ProducersFrame(s, s');
    assert Msgs(s.pendingL) == [s.pendingL[0].msg] + Msgs(s'.pendingL);
    assert s'.delivered + (Rev(s'.stackL) + Msgs(s'.pendingL)) == s.delivered + (Rev(s.stackL) + Msgs(s.pendingL));
  }

  lemma TakeSavedKeepsInv(s: State, s': State)
    requires Inv(s) && OwnerStep(s, s', TakeSaved)
    ensures Inv(s')
  {
    assert CellOk(s.heap, s.savedL, 0, InSaved);
    ListPop(s.heap, s'.heap, s.saveHead, s.savedL, InSaved);
    ListFrame(s.heap, s'.heap, s.inbox, s.inboxL, InInbox);
    ListFrame(s.heap, s'.heap, 0, s.stackL, InStack);
    ListFrame(s.heap, s'.heap, s.pending, s.pendingL, InPending);
    ProducersFrame(s, s');
    assert Msgs(s.savedL) == [s.savedL[0].msg] + Msgs(s'.savedL);
    assert |s.savedL| > 1 ==> CellOk(s.heap, s.savedL, 1, InSaved);
  }

  lemma SaveKeepsInv(s: State, s': State, a: Action)
    requires Inv(s) && a.Save? && OwnerStep(s, s', a)
    ensures Inv(s')
  {
    if s.savedL != [] {
      assert CellOk(s.heap, s.savedL, |s.savedL| - 1, InSaved);
      ListAppend(s.heap, s.saveHead, s.savedL, InSaved, a.a, a.m);
    } else {
      ListPush(s.heap, s.saveHead, s.savedL, InSaved, a.a, a.m);
    }
    ListFrame(s.heap, s'.heap, s.inbox, s.inboxL, InInbox);
    ListFrame(s.heap, s'.heap, 0, s.stackL, InStack);
    ListFrame(s.heap, s'.heap, s.pending, s.pendingL, InPending);
    ProducersFrame(s, s');
    assert Msgs(s'.savedL) == Msgs(s.savedL) + [a.m];
  }

  lemma StepKeepsInv(s: State, s': State, a: Action)
    requires Inv(s) && Step(s, s', a)
    ensures Inv(s')
  {
    if ProducerStep(s, s', a) {
      ProducerKeepsProducers(s, s', a);
      ProducerKeepsLists(s, s', a);
      ProducerKeepsOrder(s, s', a);
    } else if a.PopStart? {
      PopStartKeepsInv(s, s');
    } else if a.FlipNext? {
      FlipKeepsInv(s, s');
    } else if a.TakePending? {
      TakePendingKeepsInv(s, s');
    } else if a.TakeSaved? {
      TakeSavedKeepsInv(s, s');
    } else if a.Save? {
      SaveKeepsInv(s, s', a);
    } else {
      if a.FlipDone? { ListHead(s.heap, s.owner.stack, s.stackL, InStack); }
      ProducersFrame(s, s');
    }
  }

  lemma {:induction false} RunKeepsInv(run: seq<State>, acts: seq<Action>, i: nat)
    requires Run(run, acts) && i < |run|
    ensures Inv(run[i])
  {
    if i > 0 {
      RunKeepsInv(run, acts, i - 1);
      StepKeepsInv(run[i - 1], run[i], acts[i - 1]);
    }
  }

  // ----- theorems

  /** In every run, the delivered messages are a prefix of the successful swaps, in order, and the
      messages returned from the save queue a prefix of those saved. */
  lemma DeliveredIsPrefix(run: seq<State>, acts: seq<Action>, i: nat)
    requires Run(run, acts) && i < |run|
    ensures run[i].delivered <= run[i].sent && run[i].unsaved <= run[i].saved
    ensures run[i].sent == run[i].delivered + (Rev(run[i].stackL) + Msgs(run[i].pendingL)) + Rev(run[i].inboxL)
  {
    RunKeepsInv(run, acts, i);
    var s := run[i];
    assert s.sent[..|s.delivered|] == s.delivered;
    assert s.saved[..|s.unsaved|] == s.unsaved;
  }

  ghost predicate InPop(s: State) { s.owner.Flip? || s.owner.Take? }

  ghost predicate Drained(s: State) {
    s.pending == 0 && s.inbox == 0 && s.delivered == s.sent
  }

  /** A pop with nothing in hand has just exchanged an empty inbox, or had nothing in hand before. */
  lemma EmptyHanded(s: State, s': State, a: Action)
    requires Inv(s) && Step(s, s', a) && InPop(s') && s'.pending == 0 && s'.stackL == []
    ensures (a == PopStart && s.owner == Free && Drained(s)) || (InPop(s) && s.pending == 0 && s.stackL == [])
  {
    ListHead(s.heap, s.pending, s.pendingL, InPending);
    ListHead(s.heap, s.inbox, s.inboxL, InInbox);
    if a.PopStart? && OwnerStep(s, s', a) {
      assert Rev(s.stackL) == [] && Msgs(s.pendingL) == [] && Rev(s.inboxL) == [];
    }
  }

  /** The exchange of the pop now under way. */
  lemma {:induction false} TakeSawEmptyInbox(run: seq<State>, acts: seq<Action>, i: nat) returns (k: nat)
    requires Run(run, acts) && i < |run| && InPop(run[i]) && run[i].pending == 0 && run[i].stackL == []
    ensures k < i && acts[k] == PopStart && run[k].owner == Free && Drained(run[k])
    ensures forall j :: k < j <= i ==> InPop(run[j])
  {
    hide Inv;
    assert i > 0;
    assert Step(run[i - 1], run[i], acts[i - 1]);
    hide Step;
    RunKeepsInv(run, acts, i - 1);
    EmptyHanded(run[i - 1], run[i], acts[i - 1]);
    if acts[i - 1] == PopStart && run[i - 1].owner == Free {
      k := i - 1;
    } else {
      k := TakeSawEmptyInbox(run, acts, i - 1);
    }
  }

  /** A saved message comes out only from a pop that found nothing pending and, at its exchange,
      an empty inbox: at that moment everything sent had been delivered. */
  lemma SavedOnlyWhenDrained(run: seq<State>, acts: seq<Action>, i: nat) returns (k: nat)
    requires Run(run, acts) && i < |acts| && acts[i].TakeSaved?
    ensures k < i && acts[k] == PopStart && run[k].owner == Free && Drained(run[k])
    ensures forall j :: k < j <= i ==> InPop(run[j])
  {
    RunKeepsInv(run, acts, i);
    assert Step(run[i], run[i + 1], acts[i]);
    ListHead(run[i].heap, 0, run[i].stackL, InStack);
    k := TakeSawEmptyInbox(run, acts, i);
  }

  /** The conditions of the owner's steps that mention the abstract lists never block: a non-null
      head has a cell, and that cell a node. */
  lemma HeadsHaveCells(run: seq<State>, acts: seq<Action>, i: nat)
    requires Run(run, acts) && i < |run|
    ensures run[i].pending != 0 ==> run[i].pending in run[i].heap && run[i].pendingL != []
    ensures run[i].saveHead != 0 ==> run[i].saveHead in run[i].heap && run[i].savedL != []
    ensures run[i].owner.Flip? && run[i].owner.stack != 0 ==> run[i].owner.stack in run[i].heap && run[i].stackL != []
    ensures run[i].saveTail != 0 ==> run[i].saveTail in run[i].heap
  {
    RunKeepsInv(run, acts, i);
    var s := run[i];
    ListHead(s.heap, s.pending, s.pendingL, InPending);
    ListHead(s.heap, s.saveHead, s.savedL, InSaved);
    if s.owner.Flip? { ListHead(s.heap, s.owner.stack, s.stackL, InStack); }
    if s.savedL != [] { assert CellOk(s.heap, s.savedL, |s.savedL| - 1, InSaved); }
  }
}
