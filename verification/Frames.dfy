/** The unwindable code-frame stack of runtime/march_dispatch.c.

    Frames hold one epoch pin each, at most one version reference, and owned references to one
    closure.  `World` and the functions on it say what each operation does to one thread's frames
    and to the shared counters; the class below keeps the frames as a linked list of heap nodes,
    as the runtime does, and implements those functions. */
module Frames {
  import opened Wrappers

  type Epoch = nat
  type Closure = nat
  datatype Ref = Ref(slot: nat, version: nat)

  datatype Frame = Frame(epoch: Epoch, dispatch: Option<Ref>, closure: Option<Closure>, owned: nat)

  /** Multiplicities are counts: pins per epoch, references per version, releases per closure. */
  datatype World = World(
    frames: seq<Frame>,
    pins: multiset<Epoch>, refs: multiset<Ref>, dropped: multiset<Closure>)

  function Top(w: World): Frame
    requires w.frames != []
  {
    w.frames[|w.frames| - 1]
  }

  function WithTop(w: World, f: Frame): World
    requires w.frames != []
  {
    w.(frames := w.frames[..|w.frames| - 1] + [f])
  }

  // ----- operations; None is an abort

  /** march_frame_enter: pin the epoch, which must still have a holder, and push. */
  function FrameEnter(w: World, e: Epoch): Option<World> {
    if e !in w.pins then None
    else Some(w.(frames := w.frames + [Frame(e, None, None, 0)], pins := w.pins + multiset{e}))
  }

  function Copies(c: Option<Closure>, n: nat): multiset<Closure> {
    if c.None? || n == 0 then multiset{} else multiset{c.value} + Copies(c, n - 1)
  }

  /** frame_pop: release the closure, the version and the pin; nothing to do on an empty stack. */
  function FramePop(w: World): World {
    if w.frames == [] then w
    else
      var f := Top(w);
      World(w.frames[..|w.frames| - 1],
            w.pins - multiset{f.epoch},
            if f.dispatch.Some? then w.refs - multiset{f.dispatch.value} else w.refs,
            w.dropped + Copies(f.closure, f.owned))
  }

  /** march_frame_unwind to a mark of n frames. */
  function Unwind(w: World, n: nat): World
    requires n <= |w.frames|
    decreases |w.frames|
  {
    if |w.frames| == n then w else Unwind(FramePop(w), n)
  }

  function OwnClosure(w: World, c: Closure): Option<World> {
    if w.frames == [] || (Top(w).closure.Some? && Top(w).closure != Some(c)) then None
    else Some(WithTop(w, Top(w).(closure := Some(c), owned := Top(w).owned + 1)))
  }

  function DisownClosure(w: World, c: Closure): World {
    if w.frames == [] || Top(w).closure != Some(c) || Top(w).owned == 0 then w
    else WithTop(w, Top(w).(closure := if Top(w).owned == 1 then None else Some(c), owned := Top(w).owned - 1))
  }

  function Dispatched(w: World, r: Ref): World
    requires w.frames != []
  {
    WithTop(w, Top(w).(dispatch := Some(r))).(refs := w.refs + multiset{r})
  }

  /** march_dispatch_enter_unit, where enter_gen answered `got`. */
  function EnterUnit(w: World, e: Epoch, slot: nat, got: Option<nat>): Option<World> {
    var entered := FrameEnter(w, e);
    if entered.None? then None
    else if got.None? then Some(FramePop(entered.value))
    else Some(Dispatched(entered.value, Ref(slot, got.value)))
  }

  /** march_dispatch_enter_work_compatible: as enter_unit, but an ABI mismatch also backs out. */
  function EnterWork(w: World, e: Epoch, slot: nat, got: Option<nat>, compatible: bool): Option<World> {
    if e == 0 then Some(w)
    else
      var entered := FrameEnter(w, e);
      if entered.None? then None
      else if got.None? then Some(FramePop(entered.value))
      else
        var r := Ref(slot, got.value);
        if compatible then Some(Dispatched(entered.value, r))
        else
          // enter_gen's reference is dropped again before the frame is left
          Some(FramePop(entered.value.(refs := (w.refs + multiset{r}) - multiset{r})))
  }

  /** march_dispatch_enter_version_frame on a version whose routing epoch is e (0: inherit `outer`),
      where enter_version said whether it is live. */
  function EnterVersionFrame(w: World, r: Ref, live: bool, e: Epoch, outer: Epoch): Option<World> {
    if !live then Some(w)
    else
      var held := w.(refs := w.refs + multiset{r});
      if e != 0 && e !in w.pins then Some(held.(refs := held.refs - multiset{r}))
      else EnterPinned(if e != 0 then held.(pins := held.pins + multiset{e}) else held, r, e, outer)
  }

  /** Its second half, with the version held and its epoch pinned: the frame takes both over. */
  function EnterPinned(w: World, r: Ref, e: Epoch, outer: Epoch): Option<World> {
    var entered := FrameEnter(w, if e != 0 then e else outer);
    if entered.None? then None
    else
      var w' := entered.value.(pins := if e != 0 then entered.value.pins - multiset{e} else entered.value.pins);
      Some(WithTop(w', Top(w').(dispatch := Some(r))))
  }

  /** march_dispatch_leave_unit of the unit on top: the frame gives up its reference to the direct
      leave, then goes. */
  function LeaveUnit(w: World, r: Ref): World {
    var w1 := if w.frames != [] && Top(w).dispatch == Some(r) then FramePop(WithTop(w, Top(w).(dispatch := None)))
              else w;
    w1.(refs := w1.refs - multiset{r})
  }

  datatype Op =
    | OpFrameEnter(e: Epoch) | OpFrameLeave | OpOwn(c: Closure) | OpDisown(c: Closure)
    | OpEnterUnit(e: Epoch, slot: nat, got: Option<nat>)
    | OpEnterWork(e: Epoch, slot: nat, got: Option<nat>, compatible: bool)
    | OpEnterVersion(r: Ref, live: bool, e: Epoch, outer: Epoch)
    | OpLeaveUnit(r: Ref)

  function Do(w: World, op: Op): Option<World> {
    match op
    case OpFrameEnter(e) => FrameEnter(w, e)
    case OpFrameLeave => Some(FramePop(w))
    case OpOwn(c) => OwnClosure(w, c)
    case OpDisown(c) => Some(DisownClosure(w, c))
    case OpEnterUnit(e, slot, got) => EnterUnit(w, e, slot, got)
    case OpEnterWork(e, slot, got, ok) => EnterWork(w, e, slot, got, ok)
    case OpEnterVersion(r, live, e, outer) => EnterVersionFrame(w, r, live, e, outer)
    case OpLeaveUnit(r) => Some(LeaveUnit(w, r))
  }

  /** `after` results from the operations, none of which aborts, leaves a unit that is not on top,
      or touches the frames below the mark: those keep their epoch and dispatch, and only the
      closure of the frame at the mark itself may change hands. */
  ghost predicate Nested(w: World, mark: nat, ops: seq<Op>, after: World)
    decreases |ops|
  {
    && mark <= |w.frames|
    && if ops == [] then after == w
       else
         && (ops[0].OpLeaveUnit? ==> |w.frames| > mark && Top(w).dispatch == Some(ops[0].r))
         && (ops[0].OpFrameLeave? ==> |w.frames| > mark)
         && Do(w, ops[0]).Some?
         && Nested(Do(w, ops[0]).value, mark, ops[1..], after)
  }

  // ----- conservation

  ghost function EpochsOf(fs: seq<Frame>): multiset<Epoch> {
    if fs == [] then multiset{} else EpochsOf(fs[..|fs| - 1]) + multiset{fs[|fs| - 1].epoch}
  }

  ghost function RefsOf(fs: seq<Frame>): multiset<Ref> {
    if fs == [] then multiset{}
    else
      var f := fs[|fs| - 1];
      RefsOf(fs[..|fs| - 1]) + (if f.dispatch.Some? then multiset{f.dispatch.value} else multiset{})
  }

  ghost function ClosuresOf(fs: seq<Frame>): multiset<Closure> {
    if fs == [] then multiset{} else ClosuresOf(fs[..|fs| - 1]) + Copies(fs[|fs| - 1].closure, fs[|fs| - 1].owned)
  }

  /** What the counters would be with every frame of this thread gone. */
  datatype Base = Base(pins: multiset<Epoch>, refs: multiset<Ref>, given: multiset<Closure>)

  ghost predicate Balanced(w: World, b: Base) {
    && (forall i :: 0 <= i < |w.frames| ==> (w.frames[i].closure.None? <==> w.frames[i].owned == 0))
    && w.pins == b.pins + EpochsOf(w.frames)
    && w.refs == b.refs + RefsOf(w.frames)
    && w.dropped + ClosuresOf(w.frames) == b.given
  }

  /** The closure references handed to frames, net of those taken back. */
  ghost function BaseAfter(w: World, b: Base, op: Op): Base {
    match op
    case OpOwn(c) => b.(given := b.given + multiset{c})
    case OpDisown(c) => if Disowns(w, c) then b.(given := b.given - multiset{c}) else b
    case _ => b
  }

  lemma Snoc(fs: seq<Frame>, f: Frame)
    ensures EpochsOf(fs + [f]) == EpochsOf(fs) + multiset{f.epoch}
    ensures RefsOf(fs + [f]) == RefsOf(fs) + if f.dispatch.Some? then multiset{f.dispatch.value} else multiset{}
    ensures ClosuresOf(fs + [f]) == ClosuresOf(fs) + Copies(f.closure, f.owned)
  {
  }

  lemma TopSplit(w: World)
    requires w.frames != []
    ensures w.frames == w.frames[..|w.frames| - 1] + [Top(w)]
  {
  }

  lemma EnterBalanced(w: World, b: Base, e: Epoch)
    requires Balanced(w, b) && FrameEnter(w, e).Some?
    ensures Balanced(FrameEnter(w, e).value, b)
  {
  }

  lemma RemoveOne<T>(total: multiset<T>, base: multiset<T>, rest: multiset<T>, x: multiset<T>)
    requires total == base + (rest + x)
    ensures total - x == base + rest
  {
  }

  lemma PopBalanced(w: World, b: Base)
    requires Balanced(w, b)
    ensures Balanced(FramePop(w), b)
  {
    if w.frames != [] {
      TopSplit(w);
      var f, rest := Top(w), w.frames[..|w.frames| - 1];
      Snoc(rest, f);
      RemoveOne(w.pins, b.pins, EpochsOf(rest), multiset{f.epoch});
      if f.dispatch.Some? { RemoveOne(w.refs, b.refs, RefsOf(rest), multiset{f.dispatch.value}); }
      assert w.dropped + (ClosuresOf(rest) + Copies(f.closure, f.owned))
          == (w.dropped + Copies(f.closure, f.owned)) + ClosuresOf(rest);
      assert FramePop(w).frames == rest;
    }
  }

  /** Replacing the top frame by one of the same epoch moves exactly what the two differ in. */
  lemma RetopBalanced(w: World, b: Base, f: Frame, b': Base)
    requires Balanced(w, b) && w.frames != [] && f.epoch == Top(w).epoch && (f.closure.None? <==> f.owned == 0)
    requires b'.pins == b.pins
    requires b'.refs + (if f.dispatch.Some? then multiset{f.dispatch.value} else multiset{})
             == b.refs + (if Top(w).dispatch.Some? then multiset{Top(w).dispatch.value} else multiset{})
    requires b'.given + Copies(Top(w).closure, Top(w).owned) == b.given + Copies(f.closure, f.owned)
    ensures Balanced(WithTop(w, f), b')
  {
    TopSplit(w);
    var rest := w.frames[..|w.frames| - 1];
    Snoc(rest, Top(w));
    Snoc(rest, f);
    var w' := WithTop(w, f);
    RegroupRefs(w.refs, b.refs, RefsOf(rest),
                if Top(w).dispatch.Some? then multiset{Top(w).dispatch.value} else multiset{},
                b'.refs, if f.dispatch.Some? then multiset{f.dispatch.value} else multiset{});
    RegroupClosures(w.dropped, ClosuresOf(rest), Copies(Top(w).closure, Top(w).owned), b.given,
                    Copies(f.closure, f.owned), b'.given);
  }

  lemma RegroupRefs(refs: multiset<Ref>, b: multiset<Ref>, rest: multiset<Ref>, top: multiset<Ref>,
                    b': multiset<Ref>, top': multiset<Ref>)
    requires refs == b + (rest + top) && b' + top' == b + top
    ensures refs == b' + (rest + top')
  {
    assert b + (rest + top) == (b + top) + rest;
  }

  lemma RegroupClosures(d: multiset<Closure>, rest: multiset<Closure>, top: multiset<Closure>,
                        b: multiset<Closure>, top': multiset<Closure>, b': multiset<Closure>)
    requires d + (rest + top) == b && b' + top == b + top'
    ensures d + (rest + top') == b'
  {
    assert b + top' == (d + (rest + top')) + top;
    forall c
      ensures (d + (rest + top'))[c] == b'[c]
    {
      assert (b' + top)[c] == ((d + (rest + top')) + top)[c];
    }
  }

  lemma OwnBalanced(w: World, b: Base, c: Closure)
    requires Balanced(w, b) && OwnClosure(w, c).Some?
    ensures Balanced(OwnClosure(w, c).value, b.(given := b.given + multiset{c}))
  {
    hide EpochsOf, RefsOf, ClosuresOf;
    var f := Top(w).(closure := Some(c), owned := Top(w).owned + 1);
    assert Copies(Top(w).closure, Top(w).owned) == Copies(Some(c), Top(w).owned);
    assert Copies(f.closure, f.owned) == multiset{c} + Copies(Some(c), Top(w).owned);
    RetopBalanced(w, b, f, b.(given := b.given + multiset{c}));
  }

  ghost predicate Disowns(w: World, c: Closure) {
    w.frames != [] && Top(w).closure == Some(c) && Top(w).owned > 0
  }

  lemma DisownedWasGiven(w: World, b: Base, c: Closure)
    requires Balanced(w, b) && Disowns(w, c)
    ensures c in b.given
  {
  }

  lemma PutBack(given: multiset<Closure>, c: Closure, x: multiset<Closure>)
    requires c in given
    ensures (given - multiset{c}) + (multiset{c} + x) == given + x
  {
  }

  lemma DisownBalanced(w: World, b: Base, c: Closure)
    requires Balanced(w, b) && Disowns(w, c)
    ensures Balanced(DisownClosure(w, c), b.(given := b.given - multiset{c}))
  {
    hide Balanced;
    var top := Top(w);
    var f := top.(closure := if top.owned == 1 then None else Some(c), owned := top.owned - 1);
    assert Copies(top.closure, top.owned) == multiset{c} + Copies(f.closure, f.owned);
    DisownedWasGiven(w, b, c);
    PutBack(b.given, c, Copies(f.closure, f.owned));
    RetopBalanced(w, b, f, b.(given := b.given - multiset{c}));
  }

  lemma DispatchedBalanced(w: World, b: Base, r: Ref)
    requires Balanced(w, b) && w.frames != [] && Top(w).dispatch.None?
    ensures Balanced(Dispatched(w, r), b)
  {
    var held, b' := w.(refs := w.refs + multiset{r}), b.(refs := b.refs + multiset{r});
    assert Balanced(held, b');
    RetopBalanced(held, b', Top(w).(dispatch := Some(r)), b);
  }

  lemma EnterUnitBalanced(w: World, b: Base, e: Epoch, slot: nat, got: Option<nat>)
    requires Balanced(w, b) && EnterUnit(w, e, slot, got).Some?
    ensures Balanced(EnterUnit(w, e, slot, got).value, b)
  {
    EnterBalanced(w, b, e);
    var w1 := FrameEnter(w, e).value;
    if got.None? { PopBalanced(w1, b); } else { DispatchedBalanced(w1, b, Ref(slot, got.value)); }
  }

  lemma EnterWorkIsEnterUnit(w: World, e: Epoch, slot: nat, got: Option<nat>, compatible: bool)
    requires e != 0
    ensures EnterWork(w, e, slot, got, compatible) == EnterUnit(w, e, slot, if compatible then got else None)
  {
    if got.Some? && !compatible && FrameEnter(w, e).Some? {
      var r := Ref(slot, got.value);
      assert (w.refs + multiset{r}) - multiset{r} == w.refs;
    }
  }

  lemma PinnedIsDispatch(w: World, r: Ref, e: Epoch, outer: Epoch)
    requires e == 0 || e in w.pins
    ensures var held := w.(refs := w.refs + multiset{r});
            var at := if e != 0 then e else outer;
            EnterPinned(if e != 0 then held.(pins := held.pins + multiset{e}) else held, r, e, outer)
            == if at !in w.pins then None else Some(Dispatched(FrameEnter(w, at).value, r))
  {
    if e != 0 {
      assert (w.pins + multiset{e} + multiset{e}) - multiset{e} == w.pins + multiset{e};
    }
  }

  /** Pinning the version's epoch around march_frame_enter leaves one pin, the frame's. */
  lemma EnterVersionIsDispatch(w: World, r: Ref, live: bool, e: Epoch, outer: Epoch)
    ensures EnterVersionFrame(w, r, live, e, outer) ==
              if !live || (e != 0 && e !in w.pins) then Some(w)
              else
                var entered := FrameEnter(w, if e != 0 then e else outer);
                if entered.None? then None else Some(Dispatched(entered.value, r))
  {
    hide EnterPinned, Dispatched;
    if live && e != 0 && e !in w.pins {
      assert (w.refs + multiset{r}) - multiset{r} == w.refs;
    } else if live {
      PinnedIsDispatch(w, r, e, outer);
    }
  }

  lemma EnterVersionBalanced(w: World, b: Base, r: Ref, live: bool, e: Epoch, outer: Epoch)
    requires Balanced(w, b) && EnterVersionFrame(w, r, live, e, outer).Some?
    ensures Balanced(EnterVersionFrame(w, r, live, e, outer).value, b)
  {
    EnterVersionIsDispatch(w, r, live, e, outer);
    if live && (e == 0 || e in w.pins) {
      var at := if e != 0 then e else outer;
      EnterBalanced(w, b, at);
      DispatchedBalanced(FrameEnter(w, at).value, b, r);
    }
  }

  lemma LeaveUnitBalanced(w: World, b: Base, r: Ref)
    requires Balanced(w, b) && w.frames != [] && Top(w).dispatch == Some(r)
    ensures Balanced(LeaveUnit(w, r), b)
  {
    var b' := b.(refs := b.refs + multiset{r});
    var w1 := WithTop(w, Top(w).(dispatch := None));
    RetopBalanced(w, b, Top(w).(dispatch := None), b');
    PopBalanced(w1, b');
    var w2 := FramePop(w1);
    assert w2.refs - multiset{r} == b.refs + RefsOf(w2.frames);
  }

  /** Every operation moves the shared counters by exactly what it moves in the frames. */
  lemma OpBalanced(w: World, b: Base, op: Op)
    requires Balanced(w, b) && Do(w, op).Some?
    requires op.OpLeaveUnit? ==> w.frames != [] && Top(w).dispatch == Some(op.r)
    ensures Balanced(Do(w, op).value, BaseAfter(w, b, op))
  {
    hide Balanced, FramePop, WithTop, EnterVersionFrame;
    match op
    case OpFrameEnter(e) => EnterBalanced(w, b, e);
    case OpFrameLeave => PopBalanced(w, b);
    case OpOwn(c) => OwnBalanced(w, b, c);
    case OpDisown(c) => if Disowns(w, c) { DisownBalanced(w, b, c); }
    case OpEnterUnit(e, slot, got) => EnterUnitBalanced(w, b, e, slot, got);
    case OpEnterWork(e, slot, got, ok) =>
      if e != 0 {
        EnterWorkIsEnterUnit(w, e, slot, got, ok);
        EnterUnitBalanced(w, b, e, slot, if ok then got else None);
      }
    case OpEnterVersion(r, live, e, outer) => EnterVersionBalanced(w, b, r, live, e, outer);
    case OpLeaveUnit(r) => LeaveUnitBalanced(w, b, r);
  }

  // ----- unwinding to a mark

  ghost predicate SameBelow(w: World, w': World, mark: nat) {
    && mark <= |w.frames| && mark <= |w'.frames|
    && forall i :: 0 <= i < mark ==>
         w'.frames[i].epoch == w.frames[i].epoch && w'.frames[i].dispatch == w.frames[i].dispatch
  }

  lemma EnterUnitAboveMark(w: World, mark: nat, e: Epoch, slot: nat, got: Option<nat>)
    requires mark <= |w.frames| && EnterUnit(w, e, slot, got).Some?
    ensures SameBelow(w, EnterUnit(w, e, slot, got).value, mark)
  {
  }

  lemma EnterWorkAboveMark(w: World, mark: nat, e: Epoch, slot: nat, got: Option<nat>, ok: bool)
    requires mark <= |w.frames| && EnterWork(w, e, slot, got, ok).Some?
    ensures SameBelow(w, EnterWork(w, e, slot, got, ok).value, mark)
  {
  }

  lemma EnterPinnedAboveMark(w: World, mark: nat, r: Ref, e: Epoch, outer: Epoch)
    requires mark <= |w.frames| && EnterPinned(w, r, e, outer).Some?
    ensures SameBelow(w, EnterPinned(w, r, e, outer).value, mark)
  {
  }

  lemma EnterVersionAboveMark(w: World, mark: nat, r: Ref, live: bool, e: Epoch, outer: Epoch)
    requires mark <= |w.frames| && EnterVersionFrame(w, r, live, e, outer).Some?
    ensures SameBelow(w, EnterVersionFrame(w, r, live, e, outer).value, mark)
  {
    hide EnterPinned;
    if live && (e == 0 || e in w.pins) {
      var held := w.(refs := w.refs + multiset{r});
      EnterPinnedAboveMark(if e != 0 then held.(pins := held.pins + multiset{e}) else held, mark, r, e, outer);
    }
  }

  lemma LeaveAboveMark(w: World, mark: nat, r: Ref)
    requires mark < |w.frames|
    ensures SameBelow(w, FramePop(w), mark) && SameBelow(w, LeaveUnit(w, r), mark)
  {
  }

  lemma ClosureAboveMark(w: World, mark: nat, c: Closure)
    requires mark <= |w.frames|
    ensures SameBelow(w, DisownClosure(w, c), mark)
    ensures OwnClosure(w, c).Some? ==> SameBelow(w, OwnClosure(w, c).value, mark)
  {
  }

  lemma OpAboveMark(w: World, mark: nat, op: Op)
    requires mark <= |w.frames| && Do(w, op).Some?
    requires op.OpLeaveUnit? || op.OpFrameLeave? ==> |w.frames| > mark
    ensures SameBelow(w, Do(w, op).value, mark)
  {
    hide EnterUnit, EnterWork, EnterVersionFrame, FramePop, LeaveUnit, OwnClosure, DisownClosure;
    match op
    case OpFrameLeave => LeaveAboveMark(w, mark, Ref(0, 0));
    case OpLeaveUnit(r) => LeaveAboveMark(w, mark, r);
    case OpOwn(c) => ClosureAboveMark(w, mark, c);
    case OpDisown(c) => ClosureAboveMark(w, mark, c);
    case OpEnterUnit(e, slot, got) => EnterUnitAboveMark(w, mark, e, slot, got);
    case OpEnterWork(e, slot, got, ok) => EnterWorkAboveMark(w, mark, e, slot, got, ok);
    case OpEnterVersion(r, live, e, outer) => EnterVersionAboveMark(w, mark, r, live, e, outer);
    case OpFrameEnter(e) =>
  }

  ghost function BaseAfterAll(w: World, b: Base, ops: seq<Op>): Base
    decreases |ops|
  {
    if ops == [] || Do(w, ops[0]).None? then b
    else BaseAfterAll(Do(w, ops[0]).value, BaseAfter(w, b, ops[0]), ops[1..])
  }

  lemma {:induction false} NestedBalanced(w: World, b: Base, mark: nat, ops: seq<Op>, after: World)
    requires Balanced(w, b) && Nested(w, mark, ops, after)
    ensures Balanced(after, BaseAfterAll(w, b, ops)) && SameBelow(w, after, mark)
    ensures BaseAfterAll(w, b, ops).pins == b.pins && BaseAfterAll(w, b, ops).refs == b.refs
    decreases |ops|
  {
    hide Do, Balanced;
    if ops != [] {
      OpBalanced(w, b, ops[0]);
      OpAboveMark(w, mark, ops[0]);
      NestedBalanced(Do(w, ops[0]).value, BaseAfter(w, b, ops[0]), mark, ops[1..], after);
    }
  }

  lemma {:induction false} UnwindBalanced(w: World, b: Base, n: nat)
    requires Balanced(w, b) && n <= |w.frames|
    ensures Balanced(Unwind(w, n), b) && Unwind(w, n).frames == w.frames[..n]
    decreases |w.frames|
  {
    hide Balanced;
    if |w.frames| > n {
      PopBalanced(w, b);
      PopShortens(w, n);
      hide FramePop;
      UnwindBalanced(FramePop(w), b, n);
    }
  }

  lemma PopShortens(w: World, n: nat)
    requires n < |w.frames|
    ensures |FramePop(w).frames| == |w.frames| - 1 && FramePop(w).frames[..n] == w.frames[..n]
  {
  }

  lemma {:induction false} SameHoldings(fs: seq<Frame>, gs: seq<Frame>)
    requires |fs| == |gs|
    requires forall i :: 0 <= i < |fs| ==> gs[i].epoch == fs[i].epoch && gs[i].dispatch == fs[i].dispatch
    ensures EpochsOf(gs) == EpochsOf(fs) && RefsOf(gs) == RefsOf(fs)
  {
    if fs != [] {
      SameHoldings(fs[..|fs| - 1], gs[..|gs| - 1]);
    }
  }

  function GivenBy(op: Op): multiset<Closure> {
    if op.OpOwn? then multiset{op.c} else multiset{}
  }

  ghost function TakenBackBy(w: World, op: Op): multiset<Closure> {
    if op.OpDisown? && Disowns(w, op.c) then multiset{op.c} else multiset{}
  }

  /** The closure references the operations hand to frames. */
  function Given(ops: seq<Op>): multiset<Closure> {
    if ops == [] then multiset{} else GivenBy(ops[0]) + Given(ops[1..])
  }

  /** The closure references they take back from frames. */
  ghost function TakenBack(w: World, ops: seq<Op>): multiset<Closure>
    decreases |ops|
  {
    if ops == [] || Do(w, ops[0]).None? then multiset{}
    else TakenBackBy(w, ops[0]) + TakenBack(Do(w, ops[0]).value, ops[1..])
  }

  lemma BaseStep(w: World, b: Base, op: Op)
    requires Balanced(w, b)
    ensures BaseAfter(w, b, op).given + TakenBackBy(w, op) == b.given + GivenBy(op)
  {
    hide Balanced, Disowns;
    if op.OpDisown? && Disowns(w, op.c) { DisownedWasGiven(w, b, op.c); }
  }

  lemma {:induction false} GivenNet(w: World, b: Base, mark: nat, ops: seq<Op>, after: World)
    requires Balanced(w, b) && Nested(w, mark, ops, after)
    ensures BaseAfterAll(w, b, ops).given + TakenBack(w, ops) == b.given + Given(ops)
    decreases |ops|
  {
    hide Do, Balanced, Disowns, BaseAfter, GivenBy, TakenBackBy;
    if ops != [] {
      var op, w1, b1, rest := ops[0], Do(w, ops[0]).value, BaseAfter(w, b, ops[0]), ops[1..];
      OpBalanced(w, b, op);
      BaseStep(w, b, op);
      GivenNet(w1, b1, mark, rest, after);
      NetStep(BaseAfterAll(w1, b1, rest).given, TakenBackBy(w, op), TakenBack(w1, rest),
              b.given, GivenBy(op), Given(rest), b1.given);
    }
  }

  lemma NetStep(end: multiset<Closure>, taken: multiset<Closure>, takenLater: multiset<Closure>, was: multiset<Closure>,
                given: multiset<Closure>, givenLater: multiset<Closure>, now: multiset<Closure>)
    requires end + takenLater == now + givenLater && now + taken == was + given
    ensures end + (taken + takenLater) == was + (given + givenLater)
  {
    forall c
      ensures (end + (taken + takenLater))[c] == (was + (given + givenLater))[c]
    {
      assert (end + takenLater)[c] == (now + givenLater)[c] && (now + taken)[c] == (was + given)[c];
    }
  }

  /** Whatever was nested above a mark (units entered and not left, failed entries, version frames,
      owned closures), unwinding to it restores every epoch count and version reference, and the
      closures released since, those still with the frames at or below the mark and those taken back
      are together exactly those the frames held before and those handed to frames since. */
  lemma UnwindRestores(w: World, b: Base, ops: seq<Op>, after: World)
    requires Balanced(w, b) && Nested(w, |w.frames|, ops, after)
    ensures |w.frames| <= |after.frames|
    ensures var u := Unwind(after, |w.frames|);
            && u.pins == w.pins && u.refs == w.refs && |u.frames| == |w.frames| && SameBelow(w, u, |w.frames|)
            && u.dropped + ClosuresOf(u.frames) + TakenBack(w, ops) == w.dropped + ClosuresOf(w.frames) + Given(ops)
  {
    var n := |w.frames|;
    GivenNet(w, b, n, ops, after);
    NestedBalanced(w, b, n, ops, after);
    UnwindBalanced(after, BaseAfterAll(w, b, ops), n);
    SameHoldings(w.frames, Unwind(after, n).frames);
  }

  // ----- the linked stack

  /** march_code_frame. */
  class Node {
    const previous: Node?
    const epoch: Epoch
    var dispatch: Option<Ref>
    var closure: Option<Closure>
    var owned: nat

    constructor (previous: Node?, epoch: Epoch)
      ensures this.previous == previous && View() == Frame(epoch, None, None, 0)
    {
      this.previous, this.epoch := previous, epoch;
      dispatch, closure, owned := None, None, 0;
    }

    ghost function View(): Frame
      reads this
    {
      Frame(epoch, dispatch, closure, owned)
    }
  }

  /** The process-wide counters that frames act on. */
  class Counters {
    var pins: multiset<Epoch>
    var refs: multiset<Ref>
    var dropped: multiset<Closure>

    constructor (pins: multiset<Epoch>, refs: multiset<Ref>)
      ensures this.pins == pins && this.refs == refs && dropped == multiset{}
    {
      this.pins, this.refs, dropped := pins, refs, multiset{};
    }

    method Hold(r: Ref)
      modifies this`refs
      ensures refs == old(refs) + multiset{r}
    {
      refs := refs + multiset{r};
    }

    method Let(r: Ref)
      modifies this`refs
      ensures refs == old(refs) - multiset{r}
    {
      refs := refs - multiset{r};
    }

    /** march_epoch_pin: only an epoch that still has a holder. */
    method Pin(e: Epoch) returns (ok: bool)
      modifies this`pins
      ensures ok == (e in old(pins)) && pins == if ok then old(pins) + multiset{e} else old(pins)
    {
      ok := e in pins;
      if ok { pins := pins + multiset{e}; }
    }

    method Unpin(e: Epoch)
      modifies this`pins
      ensures pins == old(pins) - multiset{e}
    {
      pins := pins - multiset{e};
    }

    /** Take a version and pin its epoch, or neither when the epoch is retired. */
    method Take(r: Ref, e: Epoch) returns (ok: bool)
      modifies this
      ensures ok == (e == 0 || e in old(pins)) && dropped == old(dropped)
      ensures refs == if ok then old(refs) + multiset{r} else old(refs) + multiset{r} - multiset{r}
      ensures pins == if ok && e != 0 then old(pins) + multiset{e} else old(pins)
    {
      ok := true;
      Hold(r);
      if e != 0 {
        ok := Pin(e);
        if !ok { Let(r); }
      }
    }

    /** One march_frame_drop_closure per owned reference. */
    method DropClosures(c: Option<Closure>, n: nat)
      modifies this`dropped
      ensures dropped == old(dropped) + Copies(c, n)
    {
      var i := 0;
      while i < n
        invariant 0 <= i <= n && dropped == old(dropped) + Copies(c, i)
      {
        if c.Some? { dropped := dropped + multiset{c.value}; }
        i := i + 1;
      }
    }

    /** Give back what a popped frame held: its closures, the version reference and the pin. */
    method Release(f: Frame)
      modifies this
      ensures pins == old(pins) - multiset{f.epoch}
      ensures refs == if f.dispatch.Some? then old(refs) - multiset{f.dispatch.value} else old(refs)
      ensures dropped == old(dropped) + Copies(f.closure, f.owned)
    {
      DropClosures(f.closure, f.owned);
      if f.dispatch.Some? { refs := refs - multiset{f.dispatch.value}; }
      pins := pins - multiset{f.epoch};
    }
  }

  /** One thread's frame slot. */
  class Stack {
    const counters: Counters
    var head: Node?
    /** The nodes from the bottom up, and the frames they hold. */
    ghost var chain: seq<Node>
    ghost var frames: seq<Frame>

    ghost predicate Valid()
      reads this, chain
    {
      && head == (if chain == [] then null else chain[|chain| - 1])
      && (forall i, j :: 0 <= i < j < |chain| ==> chain[i] != chain[j])
      && |frames| == |chain| && (forall i :: 0 <= i < |chain| ==> chain[i].View() == frames[i])
      && (chain != [] ==> chain[0].previous == null)
      && (forall i {:trigger chain[i].previous} :: 1 <= i < |chain| ==> chain[i].previous == chain[i - 1])
    }

    ghost function View(): World
      reads this, counters
    {
      World(frames, counters.pins, counters.refs, counters.dropped)
    }

    constructor (counters: Counters)
      ensures Valid() && this.counters == counters && chain == []
    {
      this.counters, head, chain, frames := counters, null, [], [];
    }

    method Enter(e: Epoch) returns (ok: bool)
      requires Valid()
      modifies this, counters
      ensures Valid() && ok == FrameEnter(old(View()), e).Some?
      ensures ok ==> FrameEnter(old(View()), e) == Some(View())
      ensures ok ==> |chain| == |old(chain)| + 1 && chain[..|old(chain)|] == old(chain) && head != null && fresh(head)
      ensures !ok ==> unchanged(this) && unchanged(counters)
    {
      ok := counters.Pin(e);
      if ok {
        var f := new Node(head, e);
        chain, frames := chain + [f], frames + [f.View()];
        head := f;
      }
    }

    method Unlink() returns (f: Frame)
      requires Valid() && chain != []
      modifies this
      ensures Valid() && f == old(frames)[|old(frames)| - 1]
      ensures chain == old(chain)[..|old(chain)| - 1] && frames == old(frames)[..|old(frames)| - 1]
    {
      f := Frame(head.epoch, head.dispatch, head.closure, head.owned);
      head, chain, frames := head.previous, chain[..|chain| - 1], frames[..|frames| - 1];
    }

    method Pop()
      requires Valid()
      modifies this, counters
      ensures Valid() && View() == FramePop(old(View()))
      ensures chain == if old(chain) == [] then [] else old(chain)[..|old(chain)| - 1]
    {
      assert head == null <==> chain == [];
      assert |frames| == |chain|;
      hide Copies, Stack.Valid;
      if head != null {
        var f := Unlink();
        counters.Release(f);
      }
    }

    /** Rewrite the top frame in place. */
    method Retop(f: Frame)
      requires Valid() && chain != [] && f.epoch == head.epoch
      modifies this`frames, head
      ensures Valid() && View() == WithTop(old(View()), f)
    {
      head.dispatch, head.closure, head.owned := f.dispatch, f.closure, f.owned;
      frames := frames[..|frames| - 1] + [f];
    }

    /** march_frame_own_closure; false is the abort on a second closure or no frame. */
    method Own(c: Closure) returns (ok: bool)
      requires Valid()
      modifies this`frames, head
      ensures Valid() && ok == OwnClosure(old(View()), c).Some?
      ensures View() == if ok then OwnClosure(old(View()), c).value else old(View())
    {
      ok := head != null && (head.closure.None? || head.closure == Some(c));
      if ok { Retop(Frame(head.epoch, head.dispatch, Some(c), head.owned + 1)); }
    }

    /** march_frame_disown_closure. */
    method Disown(c: Closure)
      requires Valid()
      modifies this`frames, head
      ensures Valid() && View() == DisownClosure(old(View()), c)
    {
      if head != null && head.closure == Some(c) && head.owned > 0 {
        Retop(Frame(head.epoch, head.dispatch, if head.owned == 1 then None else Some(c), head.owned - 1));
      }
    }

    /** Give the frame a reference just taken. */
    method Adopt(r: Ref)
      requires Valid() && chain != []
      modifies this`frames, head
      ensures Valid() && View() == WithTop(old(View()), Top(old(View())).(dispatch := Some(r)))
    {
      Retop(Frame(head.epoch, Some(r), head.closure, head.owned));
    }

    /** The frame takes the reference that enter_gen took. */
    method Dispatch(r: Ref)
      requires Valid() && chain != []
      modifies this`frames, head, counters
      ensures Valid() && View() == Dispatched(old(View()), r)
    {
      Adopt(r);
      counters.Hold(r);
    }

    /** march_dispatch_enter_unit; got is what enter_gen answers, false an abort. */
    method EnterUnitFrame(e: Epoch, slot: nat, got: Option<nat>) returns (ok: bool)
      requires Valid()
      modifies this, counters
      ensures Valid() && ok == EnterUnit(old(View()), e, slot, got).Some?
      ensures ok ==> View() == EnterUnit(old(View()), e, slot, got).value
    {
      hide FramePop, Dispatched;
      ok := Enter(e);
      if ok {
        if got.None? {
          Pop();
        } else {
          Dispatch(Ref(slot, got.value));
        }
      }
    }

    /** An ABI mismatch: drop the reference just taken, then the frame. */
    method BackOut(r: Ref)
      requires Valid()
      modifies this, counters
      ensures Valid() && View() == FramePop(old(View()).(refs := old(counters.refs) + multiset{r} - multiset{r}))
    {
      hide FramePop;
      counters.Hold(r);
      counters.Let(r);
      Pop();
    }

    /** march_dispatch_enter_work_compatible. */
    method EnterWorkFrame(e: Epoch, slot: nat, got: Option<nat>, compatible: bool) returns (ok: bool)
      requires Valid()
      modifies this, counters
      ensures Valid() && ok == EnterWork(old(View()), e, slot, got, compatible).Some?
      ensures ok ==> View() == EnterWork(old(View()), e, slot, got, compatible).value
    {
      hide FramePop, Dispatched;
      if e == 0 { return true; }
      ok := Enter(e);
      if ok {
        if got.None? {
          Pop();
        } else if compatible {
          Dispatch(Ref(slot, got.value));
        } else {
          BackOut(Ref(slot, got.value));
        }
      }
    }

    /** march_dispatch_enter_version_frame. */
    method EnterVersion(r: Ref, live: bool, e: Epoch, outer: Epoch) returns (ok: bool)
      requires Valid()
      modifies this, counters
      ensures Valid() && ok == EnterVersionFrame(old(View()), r, live, e, outer).Some?
      ensures ok ==> View() == EnterVersionFrame(old(View()), r, live, e, outer).value
    {
      hide FramePop, WithTop, EnterPinned;
      if !live { return true; }
      var taken := counters.Take(r, e);
      if !taken { return true; }
      ok := EnterHeld(r, e, outer);
    }

    method EnterHeld(r: Ref, e: Epoch, outer: Epoch) returns (ok: bool)
      requires Valid()
      modifies this, counters
      ensures Valid() && ok == EnterPinned(old(View()), r, e, outer).Some?
      ensures ok ==> View() == EnterPinned(old(View()), r, e, outer).value
    {
      hide WithTop;
      ok := Enter(if e != 0 then e else outer);
      if ok {
        if e != 0 { counters.Unpin(e); }
        Adopt(r);
      }
    }

    /** The frame gives its reference up, then goes. */
    method LeaveTop()
      requires Valid() && chain != []
      modifies this, head, counters
      ensures Valid() && View() == FramePop(WithTop(old(View()), Top(old(View())).(dispatch := None)))
    {
      hide FramePop, WithTop;
      Retop(Frame(head.epoch, None, head.closure, head.owned));
      Pop();
    }

    /** march_dispatch_leave_unit. */
    method Leave(r: Ref)
      requires Valid()
      modifies this, head, counters
      ensures Valid() && View() == LeaveUnit(old(View()), r)
    {
      hide FramePop, WithTop;
      if head != null && head.dispatch == Some(r) { LeaveTop(); }
      counters.Let(r);
    }

    /** Pop until the head is the mark, which must be on the stack (or null for everything). */
    method UnwindTo(mark: Node?, ghost n: nat)
      requires Valid() && n <= |chain| && mark == if n == 0 then null else chain[n - 1]
      modifies this, counters
      ensures Valid() && head == mark && chain == old(chain)[..n]
      ensures View() == Unwind(old(View()), n)
    {
      hide Unwind, FramePop;
      ghost var w := View();
      while head != mark
        invariant Valid() && n <= |chain| <= |old(chain)| && chain == old(chain)[..|chain|]
        invariant Unwind(View(), n) == Unwind(w, n)
        decreases |chain|
      {
        UnwindIs(View(), n);
        Pop();
      }
      UnwindIs(View(), n);
    }
  }

  lemma UnwindIs(w: World, n: nat)
    requires n <= |w.frames|
    ensures n < |w.frames| ==> n <= |FramePop(w).frames| && Unwind(w, n) == Unwind(FramePop(w), n)
    ensures n == |w.frames| ==> Unwind(w, n) == w
  {
  }
}
