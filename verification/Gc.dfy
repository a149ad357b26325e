/** The semi-space copying collector of runtime/march_gc.c, over the arenas of Heap and the
    forwarding table of FwdTable.

    Pass 1 copies every object whose reference count is positive into a fresh arena and records
    where it went; pass 2 rewrites the pointer fields of the copies. */
module Gc {
  import opened Heap
  import opened Wrappers
  import FwdTable

  const STRING_TAG := -1
  const HASH := 2654435761

  /** GC_IS_HEAP_PTR: positive, even, and past the first page. */
  predicate IsHeapPtr(w: int) {
    w % 2 == 0 && w >= PAGE
  }

  /** The objects with a positive reference count, in walking order. */
  function LiveOf(ls: seq<Loc>): (r: seq<Loc>)
    ensures |r| <= |ls|
  {
    if ls == [] then []
    else
      var rest := LiveOf(ls[..|ls| - 1]);
      if ls[|ls| - 1].obj.rc > 0 then rest + [ls[|ls| - 1]] else rest
  }

  function AddrsOf(ls: seq<Loc>): set<Addr> {
    set k | 0 <= k < |ls| :: ls[k].addr
  }

  /** Where each object of one list went in the other. */
  function Forward(src: seq<Loc>, dst: seq<Loc>): (m: map<Addr, Addr>)
    requires |src| == |dst|
    ensures m.Keys == AddrsOf(src)
  {
    if src == [] then map[]
    else
      var n := |src| - 1;
      assert AddrsOf(src) == AddrsOf(src[..n]) + {src[n].addr} by {
        assert forall k :: 0 <= k < n ==> src[..n][k] == src[k];
        forall a | a in AddrsOf(src[..n]) ensures a in AddrsOf(src) {
          var k :| 0 <= k < n && src[..n][k].addr == a;
          assert src[k].addr == a;
        }
      }
      Forward(src[..n], dst[..n])[src[n].addr := dst[n].addr]
  }

  ghost predicate InFrom(src: seq<Block>, w: int) {
    exists i :: 0 <= i < |src| && src[i].base <= w < src[i].base + Used(src[i].objs)
  }

  /** Field i of a scanned object points into from-space, but at no live object. */
  ghost predicate DanglingField(o: Obj, i: nat, live: set<Addr>, src: seq<Block>) {
    i < |o.words| && IsHeapPtr(o.words[i]) && o.words[i] !in live && InFrom(src, o.words[i])
  }

  ghost predicate Dangles(o: Obj, live: set<Addr>, src: seq<Block>) {
    o.tag != STRING_TAG && exists i: nat :: i < o.nFields && DanglingField(o, i, live, src)
  }

  function FixWord(w: int, m: map<Addr, Addr>): int {
    if IsHeapPtr(w) && w in m then m[w] else w
  }

  /** The copy of an object after pass 2. */
  function Fix(o: Obj, m: map<Addr, Addr>): (r: Obj)
    ensures o.Ok() ==> r.Ok()
    ensures r.size == o.size
  {
    if o.tag == STRING_TAG then o
    else o.(words := seq(|o.words|, i requires 0 <= i < |o.words| =>
                     if i < o.nFields then FixWord(o.words[i], m) else o.words[i]))
  }

  // ----- pass 1

  /** The to-space holds verbatim copies of the live objects seen so far. */
  ghost predicate Copied(seen: seq<Loc>, dst: seq<Loc>, m: map<Addr, Addr>) {
    && |dst| == |LiveOf(seen)|
    && (forall k :: 0 <= k < |dst| ==> dst[k].obj == LiveOf(seen)[k].obj)
    && m == Forward(LiveOf(seen), dst)
  }

  lemma {:induction false} LiveAmong(ls: seq<Loc>, k: nat) returns (j: nat)
    requires k < |LiveOf(ls)|
    ensures j < |ls| && ls[j] == LiveOf(ls)[k] && ls[j].obj.rc > 0
  {
    var rest := ls[..|ls| - 1];
    if k < |LiveOf(rest)| {
      j := LiveAmong(rest, k);
    } else {
      j := |ls| - 1;
    }
  }

  lemma LiveSnoc(ls: seq<Loc>, l: Loc)
    ensures LiveOf(ls + [l]) == LiveOf(ls) + (if l.obj.rc > 0 then [l] else [])
  {
  }

  lemma {:induction false} LiveDistinct(ls: seq<Loc>)
    requires Distinct(ls)
    ensures Distinct(LiveOf(ls))
  {
    if ls != [] {
      var rest := ls[..|ls| - 1];
      LiveDistinct(rest);
      forall k | 0 <= k < |LiveOf(rest)|
        ensures LiveOf(rest)[k].addr != ls[|ls| - 1].addr
      {
        var j := LiveAmong(rest, k);
      }
    }
  }

  lemma CopySkips(seen: seq<Loc>, l: Loc, dst: seq<Loc>, m: map<Addr, Addr>)
    requires Copied(seen, dst, m) && l.obj.rc <= 0
    ensures Copied(seen + [l], dst, m)
  {
  }

  lemma CopyAdds(seen: seq<Loc>, l: Loc, dst: seq<Loc>, m: map<Addr, Addr>, p: Addr)
    requires Copied(seen, dst, m) && l.obj.rc > 0 && Distinct(seen + [l])
    ensures l.addr !in m && Copied(seen + [l], dst + [Loc(p, l.obj)], m[l.addr := p])
  {
    hide LiveOf, Distinct;
    LiveSnoc(seen, l);
    NotCopiedYet(seen, l);
    var src := LiveOf(seen);
    assert (src + [l])[..|src|] == src && (dst + [Loc(p, l.obj)])[..|dst|] == dst;
  }

  lemma NotCopiedYet(seen: seq<Loc>, l: Loc)
    requires Distinct(seen + [l])
    ensures l.addr !in AddrsOf(LiveOf(seen))
  {
    hide LiveOf;
    forall k | 0 <= k < |LiveOf(seen)|
      ensures LiveOf(seen)[k].addr != l.addr
    {
      var j := LiveAmong(seen, k);
      assert (seen + [l])[j] == seen[j] && (seen + [l])[|seen|] == l;
    }
  }

  /** Allocate in to-space as many bytes as the object has, and copy it there whole. */
  method AllocCopy(o: Obj, to: Arena) returns (copy: Addr)
    requires to.Valid() && o.Ok()
    modifies to
    ensures to.Valid() && Flat(to.blocks) == old(Flat(to.blocks)) + [Loc(copy, o)]
  {
    hide Flat, Mallocs, BlocksOk, UsedIn, CapacityOf;
    copy := to.Alloc(o.size - META);
    to.Overwrite(o);
  }

  /** pass1_visit. */
  method Pass1Visit(l: Loc, to: Arena, fwd: FwdTable.Table, ghost seen: seq<Loc>)
    requires to.Valid() && fwd.Valid() && Distinct(seen + [l])
    requires Copied(seen, Flat(to.blocks), fwd.contents)
    modifies to, fwd, fwd.from, fwd.to
    ensures to.Valid() && fwd.Valid() && Copied(seen + [l], Flat(to.blocks), fwd.contents)
    ensures fwd.from == old(fwd.from) || fresh(fwd.from)
    ensures fwd.to == old(fwd.to) || fresh(fwd.to)
  {
    hide Flat, Copied, LiveOf, Mallocs, BlocksOk, UsedIn, CapacityOf;
    assert (seen + [l])[|seen|] == l;
    if l.obj.rc <= 0 {
      CopySkips(seen, l, Flat(to.blocks), fwd.contents);
      return;
    }
    ghost var was := Flat(to.blocks);
    var copy := AllocCopy(l.obj, to);
    CopyAdds(seen, l, was, fwd.contents, copy);
    fwd.Insert(l.addr, copy);
  }

  /** walk_block with pass1_visit. */
  method Pass1Block(b: Block, to: Arena, fwd: FwdTable.Table, ghost seen: seq<Loc>)
    requires to.Valid() && fwd.Valid() && Distinct(seen + Locs(b.base, b.objs))
    requires Copied(seen, Flat(to.blocks), fwd.contents)
    modifies to, fwd, fwd.from, fwd.to
    ensures to.Valid() && fwd.Valid() && Copied(seen + Locs(b.base, b.objs), Flat(to.blocks), fwd.contents)
    ensures fwd.from == old(fwd.from) || fresh(fwd.from)
    ensures fwd.to == old(fwd.to) || fresh(fwd.to)
  {
    hide Flat, Copied, LiveOf, Locs, Distinct, Used, Mallocs, BlocksOk, UsedIn, CapacityOf;
    var p := b.base;
    assert p == b.base + Used(b.objs[..0]) by { NoneUsed(b.objs); }
    ghost var all := Locs(b.base, b.objs);
    assert seen + all[..0] == seen;
    for j := 0 to |b.objs|
      invariant p == b.base + Used(b.objs[..j])
      invariant to.Valid() && fwd.Valid()
      invariant Copied(seen + all[..j], Flat(to.blocks), fwd.contents)
      invariant fwd.from == old(fwd.from) || fresh(fwd.from)
      invariant fwd.to == old(fwd.to) || fresh(fwd.to)
    {
      WalkStep(seen, b, j);
      Pass1Visit(Loc(p + META, b.objs[j]), to, fwd, seen + all[..j]);
      p := p + b.objs[j].size;
    }
    assert seen + all[..|b.objs|] == seen + all;
  }

  lemma NoneUsed(objs: seq<Obj>)
    ensures Used(objs[..0]) == 0
  {
  }

  lemma WalkStep(seen: seq<Loc>, b: Block, j: nat)
    requires Distinct(seen + Locs(b.base, b.objs)) && j < |b.objs|
    ensures var all := Locs(b.base, b.objs);
            && all[j] == Loc(b.base + Used(b.objs[..j]) + META, b.objs[j])
            && seen + all[..j + 1] == seen + all[..j] + [all[j]] && Distinct(seen + all[..j] + [all[j]])
    ensures Used(b.objs[..j + 1]) == Used(b.objs[..j]) + b.objs[j].size
  {
    hide Locs;
    LocsAt(b.base, b.objs, j);
    var all := Locs(b.base, b.objs);
    assert seen + all[..j] + [all[j]] == (seen + all)[..|seen| + j + 1];
    assert b.objs[..j + 1][..j] == b.objs[..j];
  }

  /** The first walk: blocks newest first. */
  method Pass1(src: seq<Block>, to: Arena, fwd: FwdTable.Table)
    requires BlocksOk(src) && to.Valid() && fwd.Valid()
    requires Flat(to.blocks) == [] && fwd.contents == map[]
    modifies to, fwd, fwd.from, fwd.to
    ensures to.Valid() && fwd.Valid() && Copied(Walk(src), Flat(to.blocks), fwd.contents)
    ensures fwd.from == old(fwd.from) || fresh(fwd.from)
    ensures fwd.to == old(fwd.to) || fresh(fwd.to)
  {
    var i := |src|;
    assert Copied([], [], map[]);
    assert src[i..] == [];
    while i > 0
      invariant i <= |src| && to.Valid() && fwd.Valid()
      invariant Copied(Walk(src[i..]), Flat(to.blocks), fwd.contents)
      invariant fwd.from == old(fwd.from) || fresh(fwd.from)
      invariant fwd.to == old(fwd.to) || fresh(fwd.to)
    {
      hide Flat, Copied, Mallocs, BlocksOk, UsedIn, CapacityOf;
      i := i - 1;
      SuffixOk(src, i);
      WalkDistinct(src[i..]);
      assert src[i..][1..] == src[i + 1..];
      Pass1Block(src[i], to, fwd, Walk(src[i + 1..]));
    }
    assert src[0..] == src;
  }

  lemma SuffixOk(src: seq<Block>, i: nat)
    requires BlocksOk(src) && i <= |src|
    ensures BlocksOk(src[i..])
  {
  }

  // ----- pass 2

  /** gc_in_from_space. */
  method InFromSpace(src: seq<Block>, w: int) returns (found: bool)
    ensures found <==> InFrom(src, w)
  {
    for i := 0 to |src|
      invariant forall j :: 0 <= j < i ==> !(src[j].base <= w < src[j].base + Used(src[j].objs))
    {
      if src[i].base <= w < src[i].base + Used(src[i].objs) { return true; }
    }
    return false;
  }

  /** One field of a copy: forwarded, left alone, or found dangling. */
  method Pass2Field(w: int, fwd: FwdTable.Table, src: seq<Block>) returns (r: int, ok: bool)
    requires fwd.Valid()
    ensures ok <==> !(IsHeapPtr(w) && w !in fwd.contents && InFrom(src, w))
    ensures ok ==> r == FixWord(w, fwd.contents)
  {
    if !IsHeapPtr(w) { return w, true; }
    var target := fwd.Lookup(w);
    if target.Some? { return target.value, true; }
    var inside := InFromSpace(src, w);
    return w, !inside;
  }

  /** pass2_visit: rewrite the pointer fields of one copy, or give up at a dangling one. */
  method Pass2Visit(o: Obj, fwd: FwdTable.Table, src: seq<Block>) returns (r: Obj, ok: bool)
    requires o.Ok() && fwd.Valid()
    ensures ok <==> !Dangles(o, fwd.contents.Keys, src)
    ensures ok ==> r == Fix(o, fwd.contents)
  {
    if o.tag == STRING_TAG { return o, true; }
    var words := o.words;
    var i: nat := 0;
    while i < o.nFields
      invariant i <= o.nFields && |words| == |o.words|
      invariant forall j :: 0 <= j < i ==> words[j] == FixWord(o.words[j], fwd.contents)
      invariant forall j :: i <= j < |words| ==> words[j] == o.words[j]
      invariant forall j: nat :: j < i ==> !DanglingField(o, j, fwd.contents.Keys, src)
    {
      var w, fine := Pass2Field(words[i], fwd, src);
      if !fine {
        assert DanglingField(o, i, fwd.contents.Keys, src);
        return o, false;
      }
      words := words[i := w];
      i := i + 1;
    }
    r, ok := o.(words := words), true;
    assert words == Fix(o, fwd.contents).words;
  }

  ghost predicate NoneDangle(objs: seq<Obj>, live: set<Addr>, src: seq<Block>) {
    forall j :: 0 <= j < |objs| ==> !Dangles(objs[j], live, src)
  }

  function FixBlock(b: Block, m: map<Addr, Addr>): Block {
    b.(objs := seq(|b.objs|, j requires 0 <= j < |b.objs| => Fix(b.objs[j], m)))
  }

  function FixBlocks(blocks: seq<Block>, m: map<Addr, Addr>): seq<Block> {
    seq(|blocks|, i requires 0 <= i < |blocks| => FixBlock(blocks[i], m))
  }

  /** walk_block with pass2_visit.  Copies are live, so every one is scanned. */
  method Pass2Block(b: Block, fwd: FwdTable.Table, src: seq<Block>) returns (r: Block, ok: bool)
    requires fwd.Valid() && BlockOk(b)
    ensures ok <==> NoneDangle(b.objs, fwd.contents.Keys, src)
    ensures ok ==> r == FixBlock(b, fwd.contents)
  {
    hide Dangles, Fix;
    var objs: seq<Obj> := [];
    for j := 0 to |b.objs|
      invariant |objs| == j
      invariant forall k :: 0 <= k < j ==> !Dangles(b.objs[k], fwd.contents.Keys, src)
      invariant forall k :: 0 <= k < j ==> objs[k] == Fix(b.objs[k], fwd.contents)
    {
      var o, fine := Pass2Visit(b.objs[j], fwd, src);
      if !fine { return b, false; }
      objs := objs + [o];
    }
    r, ok := b.(objs := objs), true;
    assert objs == FixBlock(b, fwd.contents).objs;
  }

  ghost predicate BlocksClean(blocks: seq<Block>, live: set<Addr>, src: seq<Block>) {
    forall i :: 0 <= i < |blocks| ==> NoneDangle(blocks[i].objs, live, src)
  }

  /** The second walk. */
  method Pass2(blocks: seq<Block>, fwd: FwdTable.Table, src: seq<Block>) returns (r: seq<Block>, ok: bool)
    requires fwd.Valid() && BlocksOk(blocks)
    ensures ok <==> BlocksClean(blocks, fwd.contents.Keys, src)
    ensures ok ==> r == FixBlocks(blocks, fwd.contents)
  {
    hide NoneDangle, FixBlock;
    r := blocks;
    var i := |blocks|;
    while i > 0
      invariant 0 <= i <= |blocks| == |r|
      invariant forall k :: 0 <= k < i ==> r[k] == blocks[k]
      invariant forall k :: i <= k < |r| ==> r[k] == FixBlock(blocks[k], fwd.contents)
      invariant forall k :: i <= k < |blocks| ==> NoneDangle(blocks[k].objs, fwd.contents.Keys, src)
    {
      i := i - 1;
      var b, fine := Pass2Block(blocks[i], fwd, src);
      if !fine { return blocks, false; }
      r := r[i := b];
    }
    ok := true;
    assert r == FixBlocks(blocks, fwd.contents);
  }

  // ----- what rewriting does to the layout

  lemma {:induction false} FixUsed(objs: seq<Obj>, fixed: seq<Obj>, m: map<Addr, Addr>)
    requires |fixed| == |objs| && forall j :: 0 <= j < |objs| ==> fixed[j] == Fix(objs[j], m)
    ensures Used(fixed) == Used(objs)
  {
    hide Fix;
    if objs != [] { FixUsed(objs[..|objs| - 1], fixed[..|objs| - 1], m); }
  }

  ghost predicate FixedLocs(was: seq<Loc>, now: seq<Loc>, m: map<Addr, Addr>) {
    && |now| == |was|
    && forall k :: 0 <= k < |was| ==> now[k] == Loc(was[k].addr, Fix(was[k].obj, m))
  }

  lemma {:induction false} FixLocs(base: Addr, objs: seq<Obj>, fixed: seq<Obj>, m: map<Addr, Addr>)
    requires |fixed| == |objs| && forall j :: 0 <= j < |objs| ==> fixed[j] == Fix(objs[j], m)
    ensures FixedLocs(Locs(base, objs), Locs(base, fixed), m)
  {
    hide Fix;
    if objs != [] {
      FixLocs(base, objs[..|objs| - 1], fixed[..|objs| - 1], m);
      FixUsed(objs[..|objs| - 1], fixed[..|objs| - 1], m);
    }
  }

  lemma FixAppend(a: seq<Loc>, b: seq<Loc>, a': seq<Loc>, b': seq<Loc>, m: map<Addr, Addr>)
    requires FixedLocs(a, a', m) && FixedLocs(b, b', m)
    ensures FixedLocs(a + b, a' + b', m)
  {
  }

  ghost predicate FixedFlat(blocks: seq<Block>, now: seq<Block>, m: map<Addr, Addr>) {
    FixedLocs(Flat(blocks), Flat(now), m) && UsedIn(now) == UsedIn(blocks) && CapacityOf(now) == CapacityOf(blocks)
  }

  lemma FixSnoc(rest: seq<Block>, b: Block, now: seq<Block>, m: map<Addr, Addr>)
    requires FixedFlat(rest, now, m)
    ensures FixedFlat(rest + [b], now + [FixBlock(b, m)], m)
  {
    hide Fix;
    FixLocs(b.base, b.objs, FixBlock(b, m).objs, m);
    FixUsed(b.objs, FixBlock(b, m).objs, m);
    hide Flat, UsedIn, CapacityOf, Locs, Used;
    FlatSnoc(rest, b);
    FlatSnoc(now, FixBlock(b, m));
    FixAppend(Flat(rest), Locs(b.base, b.objs), Flat(now), Locs(b.base, FixBlock(b, m).objs), m);
  }

  /** Rewriting fields moves nothing: the same objects at the same addresses, each rewritten. */
  lemma {:induction false} FixFlat(blocks: seq<Block>, m: map<Addr, Addr>)
    ensures FixedFlat(blocks, FixBlocks(blocks, m), m)
  {
    hide FixBlock;
    if blocks != [] {
      var n := |blocks| - 1;
      FixFlat(blocks[..n], m);
      hide FixedFlat;
      FixSnoc(blocks[..n], blocks[n], FixBlocks(blocks[..n], m), m);
      assert FixBlocks(blocks, m) == FixBlocks(blocks[..n], m) + [FixBlock(blocks[n], m)];
      assert blocks == blocks[..n] + [blocks[n]];
    }
  }

  lemma FixBlocksOk(blocks: seq<Block>, m: map<Addr, Addr>)
    requires BlocksOk(blocks)
    ensures BlocksOk(FixBlocks(blocks, m))
  {
    var r := FixBlocks(blocks, m);
    forall i | 0 <= i < |r|
      ensures BlockOk(r[i])
    {
      FixUsed(blocks[i].objs, r[i].objs, m);
    }
    forall i, j | 0 <= i < j < |r|
      ensures Apart(r[i], r[j])
    {
      assert Apart(blocks[i], blocks[j]);
    }
  }

  ghost predicate LocsClean(ls: seq<Loc>, live: set<Addr>, src: seq<Block>) {
    forall k :: 0 <= k < |ls| ==> !Dangles(ls[k].obj, live, src)
  }

  lemma CleanAppend(f: seq<Loc>, g: seq<Loc>, live: set<Addr>, src: seq<Block>)
    ensures LocsClean(f + g, live, src) <==> LocsClean(f, live, src) && LocsClean(g, live, src)
  {
    hide Dangles;
    assert forall k :: 0 <= k < |f| ==> (f + g)[k] == f[k];
    assert forall k :: 0 <= k < |g| ==> (f + g)[|f| + k] == g[k];
  }

  lemma CleanBlock(b: Block, live: set<Addr>, src: seq<Block>)
    ensures NoneDangle(b.objs, live, src) <==> LocsClean(Locs(b.base, b.objs), live, src)
  {
    hide Dangles;
    var g := Locs(b.base, b.objs);
    forall j | 0 <= j < |b.objs| ensures g[j].obj == b.objs[j] { LocsAt(b.base, b.objs, j); }
  }

  /** Scanning blocks and scanning located objects find the same dangling fields. */
  lemma {:induction false} CleanIsPerObject(blocks: seq<Block>, live: set<Addr>, src: seq<Block>)
    ensures BlocksClean(blocks, live, src) <==> LocsClean(Flat(blocks), live, src)
  {
    if blocks != [] {
      hide NoneDangle, LocsClean;
      var n := |blocks| - 1;
      var b := blocks[n];
      CleanIsPerObject(blocks[..n], live, src);
      CleanBlock(b, live, src);
      CleanAppend(Flat(blocks[..n]), Locs(b.base, b.objs), live, src);
    }
  }

  // ----- the collection

  /** What a collection makes of a heap: one copy per live object, in walking order, with its
      fields sent through the forwarding map. */
  ghost predicate Compacted(src: seq<Block>, dst: seq<Block>) {
    var live, now := LiveOf(Walk(src)), Flat(dst);
    && |now| == |live|
    && forall k :: 0 <= k < |now| ==> now[k].obj == Fix(live[k].obj, Forward(live, now))
  }

  /** No live object has a scanned field pointing at a dead object or into the middle of one. */
  ghost predicate Closed(src: seq<Block>) {
    var live := LiveOf(Walk(src));
    LocsClean(live, AddrsOf(live), src)
  }

  function Held(src: seq<Block>): seq<Range> {
    seq(|src|, i requires 0 <= i < |src| => Range(src[i].base, src[i].base + src[i].capacity))
  }

  lemma {:induction false} ForwardMoves(was: seq<Loc>, now: seq<Loc>, fixed: seq<Loc>)
    requires |was| == |now| == |fixed| && forall k :: 0 <= k < |now| ==> fixed[k].addr == now[k].addr
    ensures Forward(was, fixed) == Forward(was, now)
  {
    if was != [] {
      var n := |was| - 1;
      ForwardMoves(was[..n], now[..n], fixed[..n]);
    }
  }

  /** Copying everything and then rewriting every copy is a compaction. */
  lemma PassesCompact(src: seq<Block>, blocks: seq<Block>, m: map<Addr, Addr>)
    requires Copied(Walk(src), Flat(blocks), m)
    ensures Compacted(src, FixBlocks(blocks, m))
    ensures UsedIn(blocks) == SizeOf(LiveOf(Walk(src)))
  {
    hide Flat, FixBlocks, LiveOf, Walk, Fix, SizeOf;
    FixFlat(blocks, m);
    var live, now, fixed := LiveOf(Walk(src)), Flat(blocks), Flat(FixBlocks(blocks, m));
    ForwardMoves(live, now, fixed);
    UsedIsSize(blocks);
    SameSizes(now, live);
  }

  lemma {:induction false} SameSizes(x: seq<Loc>, y: seq<Loc>)
    requires |x| == |y| && forall k :: 0 <= k < |x| ==> x[k].obj == y[k].obj
    ensures SizeOf(x) == SizeOf(y)
  {
    if x != [] { SameSizes(x[..|x| - 1], y[..|y| - 1]); }
  }

  /** Pass 2 stops exactly when some live object of from-space dangles. */
  lemma PassesAbort(src: seq<Block>, blocks: seq<Block>, m: map<Addr, Addr>)
    requires Copied(Walk(src), Flat(blocks), m)
    ensures BlocksClean(blocks, m.Keys, src) <==> Closed(src)
  {
    hide Dangles, Flat, LiveOf, Walk, BlocksClean;
    CleanIsPerObject(blocks, m.Keys, src);
  }

  /** The table capacity: 16 doubled until it covers the estimate. */
  method InitialCapacity(liveBytes: nat) returns (cap: nat)
    ensures FwdTable.PowerOfTwo(cap) && cap >= 16 && cap >= liveBytes / 64 + 16
  {
    cap := 16;
    while cap < liveBytes / 64 + 16
      invariant FwdTable.PowerOfTwo(cap) && cap >= 16
    {
      cap := cap * 2;
    }
  }

  /** The first half: a fresh to-space arena with the verbatim copies, and the forwarding table. */
  method CopyLive(src: seq<Block>, liveBytes: nat, malloc: (seq<Block>, nat) -> Addr, ghost avoid: seq<Range>)
    returns (to: Arena, fwd: FwdTable.Table)
    requires BlocksOk(src) && Mallocs(malloc, avoid)
    ensures fresh(to) && to.Valid() && fwd.Valid() && to.avoid == avoid
    ensures Copied(Walk(src), Flat(to.blocks), fwd.contents)
  {
    hide Copied, Walk, Flat, UsedIn, CapacityOf, Mallocs, BlocksOk, FwdTable.Holds;
    var cap := InitialCapacity(liveBytes);
    fwd := new FwdTable.Table(k => k * HASH, cap);
    to := new Arena(malloc, avoid);
    Pass1(src, to, fwd);
  }

  /** Both passes: a fresh to-space arena holding the rewritten copies. */
  method Evacuate(src: seq<Block>, liveBytes: nat, malloc: (seq<Block>, nat) -> Addr, ghost avoid: seq<Range>)
    returns (to: Arena, ok: bool)
    requires BlocksOk(src) && Mallocs(malloc, avoid)
    ensures fresh(to) && (ok <==> Closed(src))
    ensures ok ==> to.Valid() && to.avoid == avoid && Compacted(src, to.blocks)
    ensures ok ==> to.usedBytes == SizeOf(LiveOf(Walk(src)))
  {
    hide Copied, Closed, Compacted, BlocksClean, LiveOf, Walk, Flat, UsedIn, CapacityOf, SizeOf;
    hide Mallocs, BlocksOk, FixBlocks, FwdTable.Holds;
    var fwd;
    to, fwd := CopyLive(src, liveBytes, malloc, avoid);
    var blocks;
    blocks, ok := Pass2(to.blocks, fwd, src);
    PassesAbort(src, to.blocks, fwd.contents);
    if ok {
      PassesCompact(src, to.blocks, fwd.contents);
      FixKeepsLayout(to.blocks, fwd.contents, to.avoid);
      to.blocks := blocks;
    }
  }

  lemma FixKeepsLayout(blocks: seq<Block>, m: map<Addr, Addr>, avoid: seq<Range>)
    requires BlocksOk(blocks)
    requires forall i :: 0 <= i < |blocks| ==> Clear(blocks[i].base, blocks[i].capacity, avoid)
    ensures var fixed := FixBlocks(blocks, m);
            && BlocksOk(fixed) && |fixed| == |blocks|
            && UsedIn(fixed) == UsedIn(blocks) && CapacityOf(fixed) == CapacityOf(blocks)
            && forall i :: 0 <= i < |fixed| ==> Clear(fixed[i].base, fixed[i].capacity, avoid)
  {
    hide Flat, UsedIn, CapacityOf, BlocksOk, FixedLocs, Clear;
    FixFlat(blocks, m);
    FixBlocksOk(blocks, m);
  }

  /** march_gc_collect.  malloc answers while from-space is still held; a false result is the
      abort on a dangling intra-arena pointer. */
  method Collect(h: Arena, malloc: (seq<Block>, nat) -> Addr) returns (ok: bool)
    requires h.Valid() && Mallocs(malloc, h.avoid + Held(h.blocks))
    modifies h
    ensures ok <==> Closed(old(h.blocks))
    ensures ok ==> h.Valid() && Compacted(old(h.blocks), h.blocks)
    ensures ok ==> forall i :: 0 <= i < |h.blocks| ==>
              Clear(h.blocks[i].base, h.blocks[i].capacity, Held(old(h.blocks)))
    ensures ok ==> h.usedBytes == h.liveBytes == SizeOf(LiveOf(Walk(old(h.blocks))))
    ensures ok ==> h.dead == {} && h.Exact()
    ensures !ok ==> unchanged(h)
  {
    hide Closed, Compacted, LiveOf, Walk, Flat, UsedIn, CapacityOf, SizeOf, Mallocs, BlocksOk, Held;
    var to;
    to, ok := Evacuate(h.blocks, h.liveBytes, malloc, h.avoid + Held(h.blocks));
    if ok {
      ClearOfBoth(to.blocks, h.avoid, Held(h.blocks));
      h.blocks, h.totalBytes, h.usedBytes, h.nextBlockSize := to.blocks, to.totalBytes, to.usedBytes, to.nextBlockSize;
      h.liveBytes := h.usedBytes;
      h.dead := {};
      UsedIsSize(h.blocks);
      NoneDead(Flat(h.blocks));
    }
  }

  lemma ClearOfBoth(blocks: seq<Block>, avoid: seq<Range>, held: seq<Range>)
    requires forall i :: 0 <= i < |blocks| ==> Clear(blocks[i].base, blocks[i].capacity, avoid + held)
    ensures forall i :: 0 <= i < |blocks| ==> Clear(blocks[i].base, blocks[i].capacity, avoid)
    ensures forall i :: 0 <= i < |blocks| ==> Clear(blocks[i].base, blocks[i].capacity, held)
  {
    assert forall j :: 0 <= j < |avoid| ==> (avoid + held)[j] == avoid[j];
    assert forall j :: 0 <= j < |held| ==> (avoid + held)[|avoid| + j] == held[j];
  }

  // ----- what a compaction means

  lemma {:induction false} ForwardAt(was: seq<Loc>, now: seq<Loc>, k: nat)
    requires |was| == |now| && k < |was| && Distinct(was)
    ensures was[k].addr in Forward(was, now) && Forward(was, now)[was[k].addr] == now[k].addr
  {
    var n := |was| - 1;
    if k < n {
      ForwardAt(was[..n], now[..n], k);
      assert was[..n][k] == was[k];
      assert was[k].addr != was[n].addr;
    }
  }

  /** A scanned field of an object. */
  predicate Scanned(o: Obj, i: nat) {
    o.tag != STRING_TAG && i < o.nFields && i < |o.words|
  }

  /** The heap before and the heap after are the same graph: copies stand one-to-one for the live
      objects at distinct addresses, keep their header, size and shape, and a scanned field that
      pointed at one live object points at the copy of that object; every other word is kept. */
  lemma CompactionIsIsomorphic(src: seq<Block>, dst: seq<Block>)
    requires BlocksOk(src) && BlocksOk(dst) && Compacted(src, dst)
    ensures var live, now := LiveOf(Walk(src)), Flat(dst);
            && Distinct(live) && Distinct(now)
            && (forall k :: 0 <= k < |live| ==> now[k].obj == live[k].obj.(words := now[k].obj.words))
            && (forall k, i: nat :: 0 <= k < |live| && i < |live[k].obj.words| ==>
                  Follows(live, now, live[k].obj.words[i], now[k].obj.words[i], Scanned(live[k].obj, i)))
  {
    hide Walk, Flat, LiveOf;
    WalkDistinct(src);
    LiveDistinct(Walk(src));
    FlatDistinct(dst);
    var live, now := LiveOf(Walk(src)), Flat(dst);
    forall k, i: nat | 0 <= k < |live| && i < |live[k].obj.words|
      ensures Follows(live, now, live[k].obj.words[i], now[k].obj.words[i], Scanned(live[k].obj, i))
    {
      WordFollows(live, now, live[k].obj, i);
    }
  }

  /** How a word was carried over: through the correspondence when it is a scanned pointer to a
      live object, unchanged otherwise. */
  ghost predicate Follows(live: seq<Loc>, now: seq<Loc>, w: int, w': int, scanned: bool) {
    && |live| == |now|
    && (forall j :: 0 <= j < |live| && scanned && w == live[j].addr ==> w' == now[j].addr)
    && ((!scanned || forall j :: 0 <= j < |live| ==> w != live[j].addr) ==> w' == w)
  }

  lemma WordFollows(live: seq<Loc>, now: seq<Loc>, o: Obj, i: nat)
    requires Distinct(live) && |live| == |now| && o.Ok() && i < |o.words|
    ensures Follows(live, now, o.words[i], Fix(o, Forward(live, now)).words[i], Scanned(o, i))
  {
    forall j | 0 <= j < |live|
      ensures IsHeapPtr(live[j].addr)
      ensures live[j].addr in Forward(live, now) && Forward(live, now)[live[j].addr] == now[j].addr
    {
      ForwardAt(live, now, j);
      Even(live[j].addr);
    }
  }

  lemma Even(a: nat)
    requires a % 8 == 0
    ensures a % 2 == 0
  {
    var k := 4 * (a / 8);
    assert a == 2 * k + 0;
    FwdTable.ModOf(2, k, 0);
  }

  /** After a collection that did not abort, no scanned field points into the space about to be
      freed: copies live outside it and every pointer into it was to a live object. */
  lemma NothingLeftBehind(src: seq<Block>, dst: seq<Block>, k: nat, i: nat)
    requires BlocksOk(src) && BlocksOk(dst) && Compacted(src, dst) && Closed(src)
    requires forall b :: 0 <= b < |dst| ==> Clear(dst[b].base, dst[b].capacity, Held(src))
    requires k < |Flat(dst)| && Scanned(Flat(dst)[k].obj, i) && IsHeapPtr(Flat(dst)[k].obj.words[i])
    ensures !InFrom(src, Flat(dst)[k].obj.words[i])
  {
    CompactionIsIsomorphic(src, dst);
    hide Walk, Flat, LiveOf, Compacted;
    var live, now := LiveOf(Walk(src)), Flat(dst);
    var o := live[k].obj;
    assert Follows(live, now, o.words[i], now[k].obj.words[i], Scanned(o, i));
    if o.words[i] in AddrsOf(live) {
      var j :| 0 <= j < |live| && o.words[i] == live[j].addr;
      OutsideFrom(src, dst, j);
    } else {
      assert !Dangles(o, AddrsOf(live), src);
      assert !DanglingField(o, i, AddrsOf(live), src);
    }
  }

  lemma OutsideFrom(src: seq<Block>, dst: seq<Block>, j: nat)
    requires BlocksOk(src) && BlocksOk(dst) && j < |Flat(dst)|
    requires forall b :: 0 <= b < |dst| ==> Clear(dst[b].base, dst[b].capacity, Held(src))
    ensures !InFrom(src, Flat(dst)[j].addr)
  {
    var b := FlatInside(dst, j);
    assert Clear(dst[b].base, dst[b].capacity, Held(src));
    forall i | 0 <= i < |src|
      ensures !(src[i].base <= Flat(dst)[j].addr < src[i].base + Used(src[i].objs))
    {
      assert Held(src)[i] == Range(src[i].base, src[i].base + src[i].capacity);
      assert BlockOk(src[i]);
    }
  }
}
