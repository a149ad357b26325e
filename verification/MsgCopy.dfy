/** The deep copy of a message between process heaps, runtime/march_message.c.

    Memory is a map from object address to cell.  A word is an unsigned machine word; one at or
    past the first page is a pointer. */
module MsgCopy {
  import opened Wrappers
  import FwdTable
  import Heap

  const SANE_SIZE := 16777216   // fields whose target is at least this large are not followed
  const FWD_INITIAL_CAP := 64
  const HASH := 2654435761

  type Addr = nat
  type Word = nat

  /** Payloads, one per layout the copier tells apart by tag. */
  datatype Body =
    | Text(pad: int, bytes: seq<int>)
    | FloatBox(pad: int, bits: int)
    | SimdBox(lanes: int, raw: seq<int>)
    | NativeArr(kind: int, elems: seq<int>)
    | TypedArr(slots: seq<Word>)
    | Adt(tag: int, apad: int, fields: seq<Word>)

  datatype Cell = Cell(rc: int, allocSize: nat, body: Body)

  type Memory = map<Addr, Cell>

  predicate IsHeapPtr(w: Word) {
    w >= Heap.PAGE
  }

  function ElemSize(kind: int): nat {
    if kind == 0 || kind == 1 then 8 else if kind == 2 || kind == 3 then 4 else 1
  }

  /** The byte count each arm asks the destination heap for. */
  function BodySize(b: Body): nat {
    match b
    case Text(_, bytes) => Heap.Align8(24 + |bytes| + 1)
    case FloatBox(_, _) => 24
    case SimdBox(_, _) => 32
    case NativeArr(kind, elems) => 32 + |elems| * ElemSize(kind)
    case TypedArr(slots) => 32 + 8 * |slots|
    case Adt(_, _, fields) => 16 + 8 * |fields|
  }

  function Slots(b: Body): seq<Word> {
    match b
    case TypedArr(slots) => slots
    case Adt(_, _, fields) => fields
    case _ => []
  }

  function WithSlots(b: Body, s: seq<Word>): (r: Body)
    requires |s| == |Slots(b)|
    ensures Slots(r) == s
  {
    match b
    case TypedArr(_) => TypedArr(s)
    case Adt(tag, pad, _) => Adt(tag, pad, s)
    case _ => b
  }

  /** The new cell before any slot is rewritten: the payload verbatim, a string's pad cleared. */
  function Verbatim(b: Body): (c: Cell)
    ensures Slots(c.body) == Slots(b)
  {
    Cell(1, Heap.Align8(8 + BodySize(b)), match b case Text(_, bytes) => Text(0, bytes) case _ => b)
  }

  /** Does the copier follow a slot of body b holding w?  Array slots always, constructor fields
      only when the target's recorded size looks sane. */
  predicate Followed(mem: Memory, b: Body, w: Word) {
    IsHeapPtr(w) && w in mem && (b.TypedArr? || 0 < mem[w].allocSize < SANE_SIZE)
  }

  // ----- reachability

  ghost predicate ClosedSet(mem: Memory, k: set<Addr>) {
    forall a, i :: a in k && a in mem && 0 <= i < |Slots(mem[a].body)| ==>
      Followed(mem, mem[a].body, Slots(mem[a].body)[i]) ==> Slots(mem[a].body)[i] in k
  }

  /** The objects reached from v through followed slots: those in every closed set that has v. */
  ghost function Reach(mem: Memory, v: Word): set<Addr> {
    set a | a in mem && forall k: set<Addr> :: ClosedSet(mem, k) && v in k ==> a in k
  }

  lemma ReachClosed(mem: Memory, v: Word)
    ensures ClosedSet(mem, Reach(mem, v))
    ensures v in mem ==> v in Reach(mem, v)
  {
  }

  lemma ReachLeast(mem: Memory, v: Word, k: set<Addr>)
    requires ClosedSet(mem, k) && v in k
    ensures Reach(mem, v) <= k
  {
  }

  /** A slot that looks like a pointer and is the address of no object. */
  ghost predicate Dangles(mem: Memory, a: Addr, i: nat) {
    a in mem && i < |Slots(mem[a].body)| && IsHeapPtr(Slots(mem[a].body)[i]) && Slots(mem[a].body)[i] !in mem
  }

  /** Every word the copier takes for a pointer, from v on, is the address of an object. */
  ghost predicate Sound(mem: Memory, v: Word) {
    (IsHeapPtr(v) ==> v in mem) && forall a, i: nat :: a in Reach(mem, v) ==> !Dangles(mem, a, i)
  }

  // ----- the state of a copy in progress

  /** Memory now, and what has been copied where. */
  datatype Snap = Snap(cells: Memory, fwd: map<Addr, Addr>)

  /** src is memory at the start. */
  ghost predicate Inv(src: Memory, s: Snap) {
    && (forall a :: a in src ==> a in s.cells && s.cells[a] == src[a])
    && (forall a :: a in s.fwd ==> a in src && s.fwd[a] in s.cells && s.fwd[a] !in src && IsHeapPtr(s.fwd[a]))
    && (forall a, b :: a in s.fwd && b in s.fwd && s.fwd[a] == s.fwd[b] ==> a == b)
    && s.cells.Keys == src.Keys + s.fwd.Values
    && forall a :: a in s.fwd ==> SameShape(src[a], s.cells[s.fwd[a]])
  }

  /** A copy differs from the verbatim cell at most in its slots. */
  ghost predicate SameShape(c: Cell, d: Cell) {
    && |Slots(d.body)| == |Slots(c.body)|
    && d == Verbatim(c.body).(body := WithSlots(Verbatim(c.body).body, Slots(d.body)))
  }

  /** Slot i of the copy d of c is as it should be in the end, and did not dangle. */
  ghost predicate SlotDone(src: Memory, fwd: map<Addr, Addr>, c: Cell, d: Cell, i: nat)
    requires i < |Slots(c.body)| == |Slots(d.body)|
  {
    var w, w' := Slots(c.body)[i], Slots(d.body)[i];
    && (IsHeapPtr(w) ==> w in src)
    && if Followed(src, c.body, w) then w in fwd && w' == fwd[w] else w' == w
  }

  ghost predicate Complete(src: Memory, fwd: map<Addr, Addr>, c: Cell, d: Cell) {
    |Slots(c.body)| == |Slots(d.body)| && forall i: nat :: i < |Slots(c.body)| ==> SlotDone(src, fwd, c, d, i)
  }

  ghost predicate Extends(fwd: map<Addr, Addr>, fwd': map<Addr, Addr>) {
    forall a :: a in fwd ==> a in fwd' && fwd'[a] == fwd[a]
  }

  /** From one state to a later one: copies already made keep their place and contents, and every
      object copied in between, except perhaps those named, is complete. */
  ghost predicate Advances(src: Memory, s: Snap, s': Snap, but: set<Addr>) {
    && Extends(s.fwd, s'.fwd)
    && (forall a :: a in s.fwd && s.fwd[a] in s.cells ==>
          s.fwd[a] in s'.cells && s'.cells[s.fwd[a]] == s.cells[s.fwd[a]])
    && forall a :: a in s'.fwd && a !in s.fwd && a !in but && a in src && s'.fwd[a] in s'.cells ==>
         Complete(src, s'.fwd, src[a], s'.cells[s'.fwd[a]])
  }

  lemma CompleteGrows(src: Memory, f1: map<Addr, Addr>, f2: map<Addr, Addr>, c: Cell, d: Cell)
    requires Complete(src, f1, c, d) && Extends(f1, f2)
    ensures Complete(src, f2, c, d)
  {
    forall i: nat | i < |Slots(c.body)|
      ensures SlotDone(src, f2, c, d, i)
    {
      assert SlotDone(src, f1, c, d, i);
    }
  }

  ghost predicate Placed(src: Memory, s: Snap) {
    forall a :: a in s.fwd ==> a in src && s.fwd[a] in s.cells
  }

  lemma AdvancesTrans(src: Memory, s0: Snap, s1: Snap, s2: Snap, but: set<Addr>)
    requires Placed(src, s0) && Placed(src, s1) && Placed(src, s2)
    requires Advances(src, s0, s1, but) && Advances(src, s1, s2, {})
    ensures Advances(src, s0, s2, but)
  {
    hide Complete;
    forall a | a in s2.fwd && a !in s0.fwd && a !in but
      ensures Complete(src, s2.fwd, src[a], s2.cells[s2.fwd[a]])
    {
      if a in s1.fwd { CompleteGrows(src, s1.fwd, s2.fwd, src[a], s1.cells[s1.fwd[a]]); }
    }
  }

  lemma AdvancesRefl(src: Memory, s: Snap)
    ensures Advances(src, s, s, {})
  {
  }

  lemma SourceKept(src: Memory, s: Snap, v: Addr)
    requires Inv(src, s) && v in src
    ensures v in s.cells && s.cells[v] == src[v]
  {
  }

  function Registered(s: Snap, v: Addr, p: Addr, b: Body): Snap {
    Snap(s.cells[p := Verbatim(b)], s.fwd[v := p])
  }

  /** Registering a verbatim copy of v at a new address. */
  lemma RegisterKeeps(src: Memory, s: Snap, v: Addr, p: Addr)
    requires Inv(src, s) && v in src && v !in s.fwd && p !in s.cells && IsHeapPtr(p)
    ensures Inv(src, Registered(s, v, p, src[v].body))
  {
    hide SameShape;
    var fwd' := s.fwd[v := p];
    assert SameShape(src[v], Verbatim(src[v].body)) by { VerbatimShape(src[v]); }
    assert fwd'[v] == p;
    assert fwd'.Values == s.fwd.Values + {p} by {
      forall a | a in s.fwd ensures s.fwd[a] in fwd'.Values { assert fwd'[a] == s.fwd[a]; }
    }
  }

  lemma VerbatimShape(c: Cell)
    ensures SameShape(c, Verbatim(c.body))
  {
  }

  lemma RegisterAdvances(src: Memory, s: Snap, v: Addr, p: Addr)
    requires Inv(src, s) && v in src && v !in s.fwd && p !in s.cells
    ensures Advances(src, s, Registered(s, v, p, src[v].body), {v})
  {
    hide SameShape, Complete;
  }

  function Written(s: Snap, p: Addr, i: nat, w: Word): Snap
    requires p in s.cells && i < |Slots(s.cells[p].body)|
  {
    var d := s.cells[p];
    s.(cells := s.cells[p := d.(body := WithSlots(d.body, Slots(d.body)[i := w]))])
  }

  /** Writing one slot of the copy of v. */
  lemma WriteKeeps(src: Memory, s: Snap, v: Addr, i: nat, w: Word)
    requires Inv(src, s) && v in s.fwd && i < |Slots(s.cells[s.fwd[v]].body)|
    ensures Inv(src, Written(s, s.fwd[v], i, w))
  {
    hide SameShape;
    var p := s.fwd[v];
    var s' := Written(s, p, i, w);
    assert p in s.fwd.Values;
    assert s'.cells.Keys == s.cells.Keys;
    assert SameShape(src[v], s'.cells[p]) by { WrittenShape(src[v], s.cells[p], i, w); }
    forall a | a in s.fwd && a != v
      ensures s'.cells[s.fwd[a]] == s.cells[s.fwd[a]]
    {
    }
  }

  lemma WrittenShape(c: Cell, d: Cell, i: nat, w: Word)
    requires SameShape(c, d) && i < |Slots(d.body)|
    ensures SameShape(c, d.(body := WithSlots(d.body, Slots(d.body)[i := w])))
  {
  }

  lemma WriteAdvances(src: Memory, s0: Snap, s: Snap, v: Addr, i: nat, w: Word)
    requires Inv(src, s0) && Inv(src, s) && Advances(src, s0, s, {v})
    requires v in s.fwd && v !in s0.fwd && i < |Slots(s.cells[s.fwd[v]].body)|
    ensures Advances(src, s0, Written(s, s.fwd[v], i, w), {v})
  {
    hide SameShape, Complete;
    var s' := Written(s, s.fwd[v], i, w);
    forall a | a in s.fwd && a != v
      ensures s'.cells[s.fwd[a]] == s.cells[s.fwd[a]]
    {
    }
    forall a | a in s0.fwd
      ensures s'.cells[s0.fwd[a]] == s0.cells[s0.fwd[a]]
    {
      assert s.fwd[a] == s0.fwd[a];
    }
  }

  /** The first i slots of a copy d of c are as they should be in the end and the rest verbatim. */
  ghost predicate Partial(src: Memory, fwd: map<Addr, Addr>, c: Cell, d: Cell, i: nat) {
    && |Slots(c.body)| == |Slots(d.body)|
    && (forall j: nat :: j < i && j < |Slots(c.body)| ==> SlotDone(src, fwd, c, d, j))
    && (forall j :: i <= j < |Slots(c.body)| ==> Slots(d.body)[j] == Slots(c.body)[j])
  }

  /** The copy of v, at p, is done up to slot i. */
  ghost predicate Progress(src: Memory, s0: Snap, s: Snap, v: Addr, p: Addr, i: nat) {
    && Inv(src, s0) && Inv(src, s) && Advances(src, s0, s, {v})
    && v in src && v !in s0.fwd && v in s.fwd && s.fwd[v] == p && p in s.cells
    && Partial(src, s.fwd, src[v], s.cells[p], i)
  }

  lemma ProgressStart(src: Memory, s0: Snap, v: Addr, p: Addr)
    requires Inv(src, s0) && v in src && v !in s0.fwd && p !in s0.cells && IsHeapPtr(p)
    ensures Progress(src, s0, Registered(s0, v, p, src[v].body), v, p, 0)
  {
    RegisterKeeps(src, s0, v, p);
    RegisterAdvances(src, s0, v, p);
    hide Inv, Advances, SlotDone;
  }

  /** What the loop needs to know of the slot it is at. */
  lemma SlotFacts(src: Memory, s0: Snap, s: Snap, v: Addr, p: Addr, i: nat, k: set<Addr>)
    requires Progress(src, s0, s, v, p, i) && ClosedSet(src, k) && v in k && i < |Slots(src[v].body)|
    ensures var w := Slots(src[v].body)[i];
            && (w in src ==> w in s.cells && s.cells[w] == src[w])
            && (Followed(src, src[v].body, w) ==> w in k)
            && (IsHeapPtr(w) && w !in src ==> Dangles(src, v, i))
    ensures Inv(src, s) && v in s.cells && s.cells[v] == src[v]
  {
    hide Advances, SlotDone, SameShape;
  }

  lemma ExtendsRefl(f: map<Addr, Addr>)
    ensures Extends(f, f)
  {
  }

  lemma ExtendsTrans(f: map<Addr, Addr>, g: map<Addr, Addr>, h: map<Addr, Addr>)
    requires Extends(f, g) && Extends(g, h)
    ensures Extends(f, h)
  {
  }

  lemma Shrinks(all: set<Addr>, f: map<Addr, Addr>, f': map<Addr, Addr>)
    requires Extends(f, f')
    ensures all - f'.Keys == all - f.Keys || all - f'.Keys < all - f.Keys
  {
  }

  lemma PartialGrows(src: Memory, f1: map<Addr, Addr>, f2: map<Addr, Addr>, c: Cell, d: Cell, i: nat)
    requires Partial(src, f1, c, d, i) && Extends(f1, f2)
    ensures Partial(src, f2, c, d, i)
  {
    forall j: nat | j < i && j < |Slots(c.body)|
      ensures SlotDone(src, f2, c, d, j)
    {
      assert SlotDone(src, f1, c, d, j);
    }
  }

  lemma ProgressCall(src: Memory, s0: Snap, s1: Snap, s2: Snap, v: Addr, p: Addr, i: nat)
    requires Progress(src, s0, s1, v, p, i) && Inv(src, s2) && Advances(src, s1, s2, {})
    ensures Progress(src, s0, s2, v, p, i) && Extends(s1.fwd, s2.fwd)
  {
    hide Inv, Placed, Advances, Extends, Partial;
    InvPlaces(src, s0);
    InvPlaces(src, s1);
    InvPlaces(src, s2);
    AdvancesTrans(src, s0, s1, s2, {v});
    CopyStays(src, s1, s2, v);
    PartialGrows(src, s1.fwd, s2.fwd, src[v], s2.cells[p], i);
  }

  lemma InvPlaces(src: Memory, s: Snap)
    requires Inv(src, s)
    ensures Placed(src, s)
  {
    hide SameShape;
  }

  lemma CopyStays(src: Memory, s1: Snap, s2: Snap, v: Addr)
    requires Advances(src, s1, s2, {}) && v in s1.fwd && s1.fwd[v] in s1.cells
    ensures Extends(s1.fwd, s2.fwd) && v in s2.fwd && s2.fwd[v] == s1.fwd[v]
    ensures s1.fwd[v] in s2.cells && s2.cells[s1.fwd[v]] == s1.cells[s1.fwd[v]]
  {
    hide Complete;
  }

  lemma PartialWrite(src: Memory, fwd: map<Addr, Addr>, c: Cell, d: Cell, i: nat, w: Word)
    requires Partial(src, fwd, c, d, i) && i < |Slots(c.body)|
    requires var x := Slots(c.body)[i];
             (IsHeapPtr(x) ==> x in src) && if Followed(src, c.body, x) then x in fwd && w == fwd[x] else w == x
    ensures Partial(src, fwd, c, d.(body := WithSlots(d.body, Slots(d.body)[i := w])), i + 1)
  {
    hide Followed;
    var d' := d.(body := WithSlots(d.body, Slots(d.body)[i := w]));
    assert Slots(d'.body) == Slots(d.body)[i := w];
    forall j: nat | j < i + 1 && j < |Slots(c.body)|
      ensures SlotDone(src, fwd, c, d', j)
    {
      if j < i { assert SlotDone(src, fwd, c, d, j); }
    }
  }

  lemma ProgressWrite(src: Memory, s0: Snap, s: Snap, v: Addr, p: Addr, i: nat, w: Word)
    requires Progress(src, s0, s, v, p, i) && i < |Slots(src[v].body)|
    requires var x := Slots(src[v].body)[i];
             && (IsHeapPtr(x) ==> x in src)
             && if Followed(src, src[v].body, x) then x in s.fwd && w == s.fwd[x] else w == x
    ensures p in s.cells && i < |Slots(s.cells[p].body)| && Progress(src, s0, Written(s, p, i, w), v, p, i + 1)
  {
    WriteKeeps(src, s, v, i, w);
    WriteAdvances(src, s0, s, v, i, w);
    PartialWrite(src, s.fwd, src[v], s.cells[p], i, w);
    hide Inv, Advances, Followed, SlotDone;
  }

  lemma ProgressSkip(src: Memory, s0: Snap, s: Snap, v: Addr, p: Addr, i: nat)
    requires Progress(src, s0, s, v, p, i) && i < |Slots(src[v].body)|
    requires var x := Slots(src[v].body)[i]; (IsHeapPtr(x) ==> x in src) && !Followed(src, src[v].body, x)
    ensures Progress(src, s0, s, v, p, i + 1)
  {
    hide Inv, Advances;
  }

  lemma ProgressEnd(src: Memory, s0: Snap, s: Snap, v: Addr, p: Addr)
    requires v in src && Progress(src, s0, s, v, p, |Slots(src[v].body)|)
    ensures Inv(src, s) && Advances(src, s0, s, {}) && v in s.fwd && s.fwd[v] == p
  {
    hide SlotDone, SameShape;
    assert Complete(src, s.fwd, src[v], s.cells[p]);
  }

  // ----- the copier

  /** All of memory, with the allocator as any function that answers with an unused address. */
  class Store {
    const malloc: set<Addr> -> Addr
    var cells: Memory

    ghost predicate Valid() {
      forall ks :: malloc(ks) !in ks && IsHeapPtr(malloc(ks))
    }

    /** Allocate in the destination heap and copy the payload. */
    method Alloc(b: Body) returns (p: Addr)
      requires Valid()
      modifies this
      ensures p !in old(cells) && IsHeapPtr(p) && cells == old(cells)[p := Verbatim(b)]
    {
      p := malloc(cells.Keys);
      cells := cells[p := Verbatim(b)];
    }

    method Write(p: Addr, i: nat, w: Word)
      requires p in cells && i < |Slots(cells[p].body)|
      modifies this
      ensures var d := old(cells)[p]; cells == old(cells)[p := d.(body := WithSlots(d.body, Slots(d.body)[i := w]))]
    {
      var d := cells[p];
      cells := cells[p := d.(body := WithSlots(d.body, Slots(d.body)[i := w]))];
    }
  }

  /** copy_value.  It dereferences every word that looks like a pointer; ok is false when it came to
      one that is no object of the source memory, and the code has no defined result.  k is any
      closed set with the value in it: nothing outside it is copied. */
  method CopyValue(m: Store, fwd: FwdTable.Table, v: Word, src: Memory, ghost k: set<Addr>) returns (r: Word, ok: bool)
    requires ClosedSet(src, k) && (IsHeapPtr(v) && v in src ==> v in k)
    requires m.Valid() && fwd.Valid() && Inv(src, Snap(m.cells, fwd.contents))
    modifies m, fwd, fwd.from, fwd.to
    ensures fwd.from == old(fwd.from) || fresh(fwd.from)
    ensures fwd.to == old(fwd.to) || fresh(fwd.to)
    ensures !ok ==> (IsHeapPtr(v) && v !in src) || exists a, i: nat :: a in k && Dangles(src, a, i)
    ensures ok ==> fwd.Valid() && Inv(src, Snap(m.cells, fwd.contents))
    ensures ok ==> Advances(src, old(Snap(m.cells, fwd.contents)), Snap(m.cells, fwd.contents), {})
    ensures ok ==> fwd.contents.Keys <= old(fwd.contents.Keys) + k
    ensures ok ==> if IsHeapPtr(v) then v in src && v in fwd.contents && r == fwd.contents[v] else r == v
    decreases src.Keys - fwd.contents.Keys, 0
  {
    hide Inv, Advances, ClosedSet, Progress, FwdTable.Holds;
    ghost var s0 := Snap(m.cells, fwd.contents);
    AdvancesRefl(src, s0);
    if !IsHeapPtr(v) { return v, true; }
    var existing := fwd.Lookup(v);
    if existing.Some? {
      CopiedIsSource(src, s0, v);
      return existing.value, true;
    }
    if v !in src { return v, false; }
    SourceKept(src, s0, v);
    var p := m.Alloc(m.cells[v].body);
    ProgressStart(src, s0, v, p);
    fwd.Insert(v, p);
    assert v in src.Keys - s0.fwd.Keys && src.Keys - fwd.contents.Keys < src.Keys - s0.fwd.Keys;
    ok := CopySlots(m, fwd, v, p, src, k, s0);
    r := p;
  }

  lemma CopiedIsSource(src: Memory, s: Snap, v: Addr)
    requires Inv(src, s) && v in s.fwd
    ensures v in src
  {
  }

  /** The slot loops of the array and constructor arms; the other payloads have no slots. */
  method CopySlots(m: Store, fwd: FwdTable.Table, v: Addr, p: Addr, src: Memory, ghost k: set<Addr>, ghost s0: Snap)
    returns (ok: bool)
    requires ClosedSet(src, k) && v in k && v in src && v !in s0.fwd
    requires m.Valid() && fwd.Valid() && Progress(src, s0, Snap(m.cells, fwd.contents), v, p, 0)
    requires fwd.contents.Keys == s0.fwd.Keys + {v}
    modifies m, fwd, fwd.from, fwd.to
    ensures fwd.from == old(fwd.from) || fresh(fwd.from)
    ensures fwd.to == old(fwd.to) || fresh(fwd.to)
    ensures !ok ==> exists a, i: nat :: a in k && Dangles(src, a, i)
    ensures ok ==> fwd.Valid() && Inv(src, Snap(m.cells, fwd.contents))
    ensures ok ==> Advances(src, s0, Snap(m.cells, fwd.contents), {})
    ensures ok ==> fwd.contents.Keys <= s0.fwd.Keys + k && v in fwd.contents && fwd.contents[v] == p
    decreases src.Keys - fwd.contents.Keys, 2
  {
    hide Progress, Inv, Advances, ClosedSet, Followed, Dangles, Extends, Slots, FwdTable.Holds;
    ok := true;
    ExtendsRefl(fwd.contents);
    var n := |Slots(src[v].body)|;
    for i := 0 to n
      invariant fwd.Valid() && Progress(src, s0, Snap(m.cells, fwd.contents), v, p, i)
      invariant fwd.from == old(fwd.from) || fresh(fwd.from)
      invariant fwd.to == old(fwd.to) || fresh(fwd.to)
      invariant fwd.contents.Keys <= s0.fwd.Keys + k && Extends(old(fwd.contents), fwd.contents)
    {
      Shrinks(src.Keys, old(fwd.contents), fwd.contents);
      ghost var f1 := fwd.contents;
      ok := CopySlot(m, fwd, v, p, i, src, k, s0);
      if !ok { return; }
      ExtendsTrans(old(fwd.contents), f1, fwd.contents);
    }
    ok := true;
    ProgressEnd(src, s0, Snap(m.cells, fwd.contents), v, p);
  }

  /** One slot: follow it and write the new pointer, or leave the word as copied. */
  method CopySlot(m: Store, fwd: FwdTable.Table, v: Addr, p: Addr, i: nat, src: Memory, ghost k: set<Addr>,
                  ghost s0: Snap)
    returns (ok: bool)
    requires ClosedSet(src, k) && v in k && v in src && i < |Slots(src[v].body)|
    requires m.Valid() && fwd.Valid() && Progress(src, s0, Snap(m.cells, fwd.contents), v, p, i)
    modifies m, fwd, fwd.from, fwd.to
    ensures fwd.from == old(fwd.from) || fresh(fwd.from)
    ensures fwd.to == old(fwd.to) || fresh(fwd.to)
    ensures !ok ==> exists a, j: nat :: a in k && Dangles(src, a, j)
    ensures ok ==> fwd.Valid() && Progress(src, s0, Snap(m.cells, fwd.contents), v, p, i + 1)
    ensures ok ==> fwd.contents.Keys <= old(fwd.contents.Keys) + k && Extends(old(fwd.contents), fwd.contents)
    decreases src.Keys - fwd.contents.Keys, 1
  {
    hide Progress, Inv, Advances, ClosedSet, Dangles, FwdTable.Holds;
    ghost var s1 := Snap(m.cells, fwd.contents);
    SlotFacts(src, s0, s1, v, p, i, k);
    var b := m.cells[v].body;
    var w := Slots(b)[i];
    if !b.TypedArr? && IsHeapPtr(w) && w !in src { return false; }
    if b.TypedArr? || (IsHeapPtr(w) && 0 < m.cells[w].allocSize < SANE_SIZE) {
      var c;
      c, ok := CopyValue(m, fwd, w, src, k);
      if !ok { return; }
      ghost var s2 := Snap(m.cells, fwd.contents);
      ProgressCall(src, s0, s1, s2, v, p, i);
      ProgressWrite(src, s0, s2, v, p, i, c);
      m.Write(p, i, c);
    } else {
      ok := true;
      ProgressSkip(src, s0, s1, v, p, i);
    }
  }

  /** What a finished copy is: r stands for v, exactly the objects reached from v were copied, each
      once to an address of its own, and every slot of every copy is as it should be. */
  ghost predicate CopyOf(src: Memory, s: Snap, v: Word, r: Word) {
    && Inv(src, s) && v in s.fwd && r == s.fwd[v]
    && s.fwd.Keys == Reach(src, v)
    && forall a :: a in s.fwd ==> Complete(src, s.fwd, src[a], s.cells[s.fwd[a]])
  }

  /** march_msg_copy.  It has a defined result exactly when every word it takes for a pointer, from
      the value on, is the address of an object. */
  method Copy(m: Store, v: Word) returns (r: Word, ok: bool, ghost fwd: map<Addr, Addr>)
    requires m.Valid()
    modifies m
    ensures !IsHeapPtr(v) ==> ok && r == v && m.cells == old(m.cells)
    ensures IsHeapPtr(v) ==> (ok <==> Sound(old(m.cells), v))
    ensures IsHeapPtr(v) && ok ==> CopyOf(old(m.cells), Snap(m.cells, fwd), v, r)
  {
    hide Inv, Advances, ClosedSet, Reach, CopyOf, Sound, Dangles, FwdTable.Holds;
    fwd := map[];
    if !IsHeapPtr(v) { return v, true, map[]; }
    var src := m.cells;
    StartInv(src);
    ReachClosed(src, v);
    var table := new FwdTable.Table(a => a * HASH, FWD_INITIAL_CAP);
    r, ok := CopyValue(m, table, v, src, Reach(src, v));
    fwd := table.contents;
    if ok {
      AllCopied(src, Snap(m.cells, fwd), v);
      CopyIsSound(src, Snap(m.cells, fwd), v, r);
    } else {
      assert !Sound(src, v) by { UnsoundIs(src, v); }
    }
  }

  lemma UnsoundIs(src: Memory, v: Word)
    requires IsHeapPtr(v) && (v !in src || exists a, i: nat :: a in Reach(src, v) && Dangles(src, a, i))
    ensures !Sound(src, v)
  {
    hide Reach;
  }

  lemma StartInv(src: Memory)
    ensures Inv(src, Snap(src, map[]))
  {
    var none: map<Addr, Addr> := map[];
    assert src.Keys == src.Keys + none.Values;
  }

  lemma AllCopied(src: Memory, s: Snap, v: Word)
    requires Inv(src, s) && Advances(src, Snap(src, map[]), s, {})
    requires v in s.fwd && s.fwd.Keys <= Reach(src, v)
    ensures CopyOf(src, s, v, s.fwd[v])
  {
    forall a, i | a in s.fwd.Keys && a in src && 0 <= i < |Slots(src[a].body)|
                  && Followed(src, src[a].body, Slots(src[a].body)[i])
      ensures Slots(src[a].body)[i] in s.fwd.Keys
    {
      assert SlotDone(src, s.fwd, src[a], s.cells[s.fwd[a]], i);
    }
    ReachLeast(src, v, s.fwd.Keys);
  }

  lemma CopyIsSound(src: Memory, s: Snap, v: Word, r: Word)
    requires CopyOf(src, s, v, r)
    ensures Sound(src, v)
  {
    hide Reach;
    forall a, i: nat | a in Reach(src, v)
      ensures !Dangles(src, a, i)
    {
      if i < |Slots(src[a].body)| { assert SlotDone(src, s.fwd, src[a], s.cells[s.fwd[a]], i); }
    }
  }

  // ----- what a finished copy means

  /** Each reached object was copied exactly once, and nothing else was allocated or changed. */
  lemma CopiedExactlyOnce(src: Memory, s: Snap, v: Word, r: Word)
    requires CopyOf(src, s, v, r)
    ensures forall a :: a in src ==> a in s.cells && s.cells[a] == src[a]
    ensures |s.cells| == |src| + |Reach(src, v)|
  {
    ValuesCount(s.fwd);
    assert src.Keys !! s.fwd.Values;
    assert |s.cells.Keys| == |src.Keys| + |s.fwd.Values|;
  }

  lemma {:induction false} ValuesCount(f: map<Addr, Addr>)
    requires forall a, b :: a in f && b in f && f[a] == f[b] ==> a == b
    ensures |f.Values| == |f.Keys|
    decreases f.Keys
  {
    if a :| a in f {
      var g := f - {a};
      ValuesCount(g);
      assert f.Values == g.Values + {f[a]} by {
        forall x | x in f.Values ensures x in g.Values + {f[a]} {
          var b :| b in f && f[b] == x;
          if b != a { assert g[b] == x; }
        }
        forall x | x in g.Values ensures x in f.Values {
          var b :| b in g && g[b] == x;
          assert f[b] == x;
        }
      }
      assert f.Keys == g.Keys + {a};
      assert f[a] !in g.Values;
    } else {
      assert f.Keys == {} && f.Values == {};
    }
  }

  /** Sharing is kept both ways: followed slots of copies hold one pointer exactly when the slots
      they came from did, and it is the copy of that target. */
  lemma SharingKept(src: Memory, s: Snap, v: Word, r: Word, a: Addr, i: nat, b: Addr, j: nat)
    requires CopyOf(src, s, v, r) && a in Reach(src, v) && b in Reach(src, v)
    requires i < |Slots(src[a].body)| && Followed(src, src[a].body, Slots(src[a].body)[i])
    requires j < |Slots(src[b].body)| && Followed(src, src[b].body, Slots(src[b].body)[j])
    ensures var x, y := Slots(s.cells[s.fwd[a]].body), Slots(s.cells[s.fwd[b]].body);
            i < |x| && j < |y| && (x[i] == y[j] <==> Slots(src[a].body)[i] == Slots(src[b].body)[j])
  {
    hide Reach;
    assert SlotDone(src, s.fwd, src[a], s.cells[s.fwd[a]], i);
    assert SlotDone(src, s.fwd, src[b], s.cells[s.fwd[b]], j);
  }

  ghost predicate PointerClosed(mem: Memory, k: set<Addr>) {
    forall a, i :: a in k && a in mem && 0 <= i < |Slots(mem[a].body)| && IsHeapPtr(Slots(mem[a].body)[i]) ==>
      Slots(mem[a].body)[i] in k
  }

  /** A pointer field the copier does not follow. */
  ghost predicate Escapes(src: Memory, a: Addr, i: nat) {
    && a in src && i < |Slots(src[a].body)| && IsHeapPtr(Slots(src[a].body)[i])
    && !Followed(src, src[a].body, Slots(src[a].body)[i])
  }

  /** A set that has the result in it has every copy, if it is closed under the pointers of memory. */
  lemma CopiesReached(src: Memory, s: Snap, v: Word, r: Word, k: set<Addr>)
    requires CopyOf(src, s, v, r) && PointerClosed(s.cells, k) && r in k
    ensures forall a :: a in s.fwd ==> s.fwd[a] in k
  {
    var back := set a | a in s.fwd && s.fwd[a] in k;
    forall a, i | a in back && a in src && 0 <= i < |Slots(src[a].body)|
                  && Followed(src, src[a].body, Slots(src[a].body)[i])
      ensures Slots(src[a].body)[i] in back
    {
      assert SlotDone(src, s.fwd, src[a], s.cells[s.fwd[a]], i);
    }
    ReachLeast(src, v, back);
  }

  /** The copy shares nothing with the source exactly when every pointer field among the copied
      objects leads to an object of sane size; any other is left pointing at the source. */
  lemma DisjointExactlyWhenAllFollowed(src: Memory, s: Snap, v: Word, r: Word)
    requires CopyOf(src, s, v, r)
    ensures (exists k: set<Addr> :: PointerClosed(s.cells, k) && r in k && k !! src.Keys)
       <==> (forall a, i: nat :: a in Reach(src, v) ==> !Escapes(src, a, i))
  {
    hide Reach;
    if k: set<Addr> :| PointerClosed(s.cells, k) && r in k && k !! src.Keys {
      CopiesReached(src, s, v, r, k);
      forall a, i: nat | a in Reach(src, v) && i < |Slots(src[a].body)| && IsHeapPtr(Slots(src[a].body)[i])
        ensures Followed(src, src[a].body, Slots(src[a].body)[i])
      {
        assert SlotDone(src, s.fwd, src[a], s.cells[s.fwd[a]], i);
      }
    }
    if forall a, i: nat :: a in Reach(src, v) ==> !Escapes(src, a, i) {
      CopiesClosed(src, s, v, r);
      assert s.fwd.Values !! src.Keys && r in s.fwd.Values;
    }
  }

  lemma CopiesClosed(src: Memory, s: Snap, v: Word, r: Word)
    requires CopyOf(src, s, v, r)
    requires forall a, i: nat :: a in Reach(src, v) ==> !Escapes(src, a, i)
    ensures PointerClosed(s.cells, s.fwd.Values)
  {
    hide Reach;
    forall p, i | p in s.fwd.Values && p in s.cells && 0 <= i < |Slots(s.cells[p].body)|
                  && IsHeapPtr(Slots(s.cells[p].body)[i])
      ensures Slots(s.cells[p].body)[i] in s.fwd.Values
    {
      var a :| a in s.fwd && s.fwd[a] == p;
      assert SlotDone(src, s.fwd, src[a], s.cells[p], i);
      assert !Escapes(src, a, i);
    }
  }

  /** A constructor cell whose one field is a string that takes exactly the size limit to allocate. */
  const OVERSIZED: Memory := map[
    8192 := Verbatim(Adt(0, 0, [16384])),
    16384 := Verbatim(Text(0, seq(SANE_SIZE - 33, _ => 0)))]

  /** The copy of that cell does share an object with the source. */
  lemma OversizedIsShared(s: Snap, r: Word)
    requires CopyOf(OVERSIZED, s, 8192, r)
    ensures !exists k: set<Addr> :: PointerClosed(s.cells, k) && r in k && k !! OVERSIZED.Keys
  {
    hide CopyOf;
    ReachClosed(OVERSIZED, 8192);
    assert OVERSIZED[16384].allocSize == SANE_SIZE;
    assert Escapes(OVERSIZED, 8192, 0);
    DisjointExactlyWhenAllFollowed(OVERSIZED, s, 8192, r);
  }

  // ----- words mistaken for pointers

  /** A tagged integer, as a machine word. */
  function TaggedWord(n: int): Word {
    (2 * n + 1) % 0x1_0000_0000_0000_0000
  }

  /** The copier's pointer test has no low-bit check: of the 63-bit integers it takes exactly the
      negative ones and those from 2048 on for pointers. */
  lemma TaggedMistaken(n: int)
    requires -0x4000_0000_0000_0000 <= n < 0x4000_0000_0000_0000
    ensures IsHeapPtr(TaggedWord(n)) <==> n < 0 || n >= 2048
  {
    if n < 0 { assert TaggedWord(n) == 2 * n + 1 + 0x1_0000_0000_0000_0000; }
  }

  /** So copying a cell whose one field is a tagged integer at which no object happens to live has a
      defined result exactly when that integer is small and not negative. */
  lemma TaggedFaults(mem: Memory, a: Addr, tag: int, n: int)
    requires a in mem && mem[a].body == Adt(tag, 0, [TaggedWord(n)])
    requires -0x4000_0000_0000_0000 <= n < 0x4000_0000_0000_0000 && TaggedWord(n) !in mem
    ensures Sound(mem, a) <==> 0 <= n < 2048
  {
    hide Reach, TaggedWord;
    TaggedMistaken(n);
    ReachClosed(mem, a);
    ReachLeast(mem, a, {a});
    assert n < 0 || n >= 2048 ==> Dangles(mem, a, 0);
  }
}
