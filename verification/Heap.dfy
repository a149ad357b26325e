/** The per-process bump allocator of runtime/march_heap.c.

    A heap is a list of blocks; this model keeps them oldest first, so the C list (newest first,
    the current block at its head) is read from the end.  Within a block objects follow one another,
    each preceded by its hidden eight-byte metadata; an object's address is that of its header. */
module Heap {
  const BLOCK_MIN := 65536      // MARCH_HEAP_BLOCK_MIN
  const BLOCK_MAX := 4194304    // MARCH_HEAP_BLOCK_MAX
  const META := 8
  const HEADER := 16
  const PAGE := 4096

  type Addr = nat

  /** An allocation: total size in bytes with metadata, field count, header, payload words. */
  datatype Obj = Obj(size: nat, nFields: nat, rc: int, tag: int, pad: int, words: seq<int>) {
    ghost predicate Ok() {
      size % 8 == 0 && size == META + HEADER + 8 * |words| && nFields <= |words|
    }
  }

  datatype Block = Block(base: Addr, capacity: nat, objs: seq<Obj>)

  /** An object with the address it lives at. */
  datatype Loc = Loc(addr: Addr, obj: Obj)

  function Align8(n: nat): (r: nat)
    ensures n <= r < n + 8 && r % 8 == 0
  {
    (n + 7) / 8 * 8
  }

  function Used(objs: seq<Obj>): nat {
    if objs == [] then 0 else Used(objs[..|objs| - 1]) + objs[|objs| - 1].size
  }

  /** The objects of a block with their addresses, in address order. */
  function Locs(base: Addr, objs: seq<Obj>): (r: seq<Loc>)
    ensures |r| == |objs|
  {
    if objs == [] then []
    else
      var rest := objs[..|objs| - 1];
      Locs(base, rest) + [Loc(base + Used(rest) + META, objs[|objs| - 1])]
  }

  /** Allocation order. */
  function Flat(blocks: seq<Block>): seq<Loc> {
    if blocks == [] then []
    else Flat(blocks[..|blocks| - 1]) + Locs(blocks[|blocks| - 1].base, blocks[|blocks| - 1].objs)
  }

  /** The order in which the block list is walked: newest block first. */
  function Walk(blocks: seq<Block>): seq<Loc> {
    if blocks == [] then [] else Walk(blocks[1..]) + Locs(blocks[0].base, blocks[0].objs)
  }

  function UsedIn(blocks: seq<Block>): nat {
    if blocks == [] then 0 else UsedIn(blocks[..|blocks| - 1]) + Used(blocks[|blocks| - 1].objs)
  }

  function CapacityOf(blocks: seq<Block>): nat {
    if blocks == [] then 0 else CapacityOf(blocks[..|blocks| - 1]) + blocks[|blocks| - 1].capacity
  }

  function SizeOf(ls: seq<Loc>): nat {
    if ls == [] then 0 else SizeOf(ls[..|ls| - 1]) + ls[|ls| - 1].obj.size
  }

  // ----- layout facts

  ghost predicate BlockOk(b: Block) {
    && b.base >= PAGE && b.base % 8 == 0 && Used(b.objs) <= b.capacity
    && forall j :: 0 <= j < |b.objs| ==> b.objs[j].Ok()
  }

  ghost predicate Apart(b: Block, c: Block) {
    b.base + b.capacity <= c.base || c.base + c.capacity <= b.base
  }

  ghost predicate BlocksOk(blocks: seq<Block>) {
    && (forall i :: 0 <= i < |blocks| ==> BlockOk(blocks[i]))
    && forall i, j :: 0 <= i < j < |blocks| ==> Apart(blocks[i], blocks[j])
  }

  /** Addresses along a located list are distinct heap addresses. */
  ghost predicate Distinct(ls: seq<Loc>) {
    && (forall i :: 0 <= i < |ls| ==> ls[i].addr > PAGE && ls[i].addr % 8 == 0 && ls[i].obj.Ok())
    && forall i, j :: 0 <= i < j < |ls| ==> ls[i].addr != ls[j].addr
  }

  lemma {:induction false} LocsAt(base: Addr, objs: seq<Obj>, j: nat)
    requires j < |objs|
    ensures Locs(base, objs)[j] == Loc(base + Used(objs[..j]) + META, objs[j])
  {
    if j < |objs| - 1 {
      LocsAt(base, objs[..|objs| - 1], j);
      assert objs[..|objs| - 1][..j] == objs[..j];
    }
  }

  lemma {:induction false} UsedPrefix(objs: seq<Obj>, j: nat)
    requires j < |objs|
    ensures Used(objs[..j]) + objs[j].size <= Used(objs)
  {
    var rest := objs[..|objs| - 1];
    if j < |rest| {
      UsedPrefix(rest, j);
      assert rest[..j] == objs[..j];
    }
  }

  lemma {:induction false} UsedAligned(objs: seq<Obj>)
    requires forall j :: 0 <= j < |objs| ==> objs[j].Ok()
    ensures Used(objs) % 8 == 0
  {
    if objs != [] {
      UsedAligned(objs[..|objs| - 1]);
      AddAligned(Used(objs[..|objs| - 1]), objs[|objs| - 1].size);
    }
  }

  lemma AddAligned(x: nat, y: nat)
    requires x % 8 == 0 && y % 8 == 0
    ensures (x + y) % 8 == 0
  {
  }

  lemma LocsInside(base: Addr, objs: seq<Obj>)
    requires base >= PAGE && base % 8 == 0 && forall j :: 0 <= j < |objs| ==> objs[j].Ok()
    ensures Distinct(Locs(base, objs))
    ensures forall j :: 0 <= j < |objs| ==> base < Locs(base, objs)[j].addr < base + Used(objs)
  {
    var r := Locs(base, objs);
    forall j | 0 <= j < |objs|
      ensures base < r[j].addr < base + Used(objs) && r[j].addr % 8 == 0 && r[j].obj.Ok()
    {
      LocsAt(base, objs, j);
      UsedPrefix(objs, j);
      UsedAligned(objs[..j]);
    }
    forall i, j | 0 <= i < j < |r|
      ensures r[i].addr < r[j].addr
    {
      LocsAt(base, objs, i);
      LocsAt(base, objs, j);
      UsedPrefix(objs[..j], i);
      assert objs[..j][..i] == objs[..i];
    }
  }

  /** Every object of a list of blocks lies inside one of them. */
  lemma {:induction false} FlatInside(blocks: seq<Block>, k: nat) returns (i: nat)
    requires BlocksOk(blocks) && k < |Flat(blocks)|
    ensures i < |blocks| && blocks[i].base < Flat(blocks)[k].addr < blocks[i].base + blocks[i].capacity
  {
    var n := |blocks|;
    var b := blocks[n - 1];
    var rest := blocks[..n - 1];
    LocsInside(b.base, b.objs);
    if k < |Flat(rest)| {
      i := FlatInside(rest, k);
    } else {
      i := n - 1;
    }
  }

  lemma {:induction false} FlatDistinct(blocks: seq<Block>)
    requires BlocksOk(blocks)
    ensures Distinct(Flat(blocks))
  {
    if blocks != [] {
      var n := |blocks|;
      var b, rest := blocks[n - 1], blocks[..n - 1];
      FlatDistinct(rest);
      LocsInside(b.base, b.objs);
      var f, g := Flat(rest), Locs(b.base, b.objs);
      forall x, y | 0 <= x < |f| && 0 <= y < |g|
        ensures f[x].addr != g[y].addr
      {
        var i := FlatInside(rest, x);
        assert Apart(blocks[i], b);
      }
    }
  }

  lemma {:induction false} WalkInside(blocks: seq<Block>, k: nat) returns (i: nat)
    requires BlocksOk(blocks) && k < |Walk(blocks)|
    ensures i < |blocks| && blocks[i].base < Walk(blocks)[k].addr < blocks[i].base + Used(blocks[i].objs)
  {
    LocsInside(blocks[0].base, blocks[0].objs);
    if k < |Walk(blocks[1..])| {
      i := WalkInside(blocks[1..], k);
      i := i + 1;
    } else {
      i := 0;
    }
  }

  lemma {:induction false} WalkDistinct(blocks: seq<Block>)
    requires BlocksOk(blocks)
    ensures Distinct(Walk(blocks))
  {
    if blocks != [] {
      var b, rest := blocks[0], blocks[1..];
      WalkDistinct(rest);
      LocsInside(b.base, b.objs);
      var f, g := Walk(rest), Locs(b.base, b.objs);
      forall x, y | 0 <= x < |f| && 0 <= y < |g|
        ensures f[x].addr != g[y].addr
      {
        var i := WalkInside(rest, x);
        assert Apart(b, blocks[i + 1]);
      }
    }
  }

  lemma FlatPush(rest: seq<Block>, b: Block, o: Obj)
    ensures Flat(rest + [b.(objs := b.objs + [o])]) == Flat(rest + [b]) + [Loc(b.base + Used(b.objs) + META, o)]
  {
    hide Flat, Locs, Used;
    FlatSnoc(rest, b);
    FlatSnoc(rest, b.(objs := b.objs + [o]));
    LocsSnoc(b.base, b.objs, o);
    Assoc(Flat(rest), Locs(b.base, b.objs), [Loc(b.base + Used(b.objs) + META, o)]);
  }

  lemma Assoc(x: seq<Loc>, y: seq<Loc>, z: seq<Loc>)
    ensures x + (y + z) == (x + y) + z
  {
  }

  lemma FlatSnoc(blocks: seq<Block>, b: Block)
    ensures Flat(blocks + [b]) == Flat(blocks) + Locs(b.base, b.objs)
    ensures UsedIn(blocks + [b]) == UsedIn(blocks) + Used(b.objs)
    ensures CapacityOf(blocks + [b]) == CapacityOf(blocks) + b.capacity
  {
  }

  lemma NothingUsed(base: Addr)
    ensures Used([]) == 0 && Locs(base, []) == []
  {
  }

  lemma LocsSnoc(base: Addr, objs: seq<Obj>, o: Obj)
    ensures Locs(base, objs + [o]) == Locs(base, objs) + [Loc(base + Used(objs) + META, o)]
    ensures Used(objs + [o]) == Used(objs) + o.size
  {
  }

  lemma {:induction false} UsedIsSize(blocks: seq<Block>)
    ensures UsedIn(blocks) == SizeOf(Flat(blocks))
  {
    if blocks != [] {
      var n := |blocks|;
      UsedIsSize(blocks[..n - 1]);
      SizeAppend(Flat(blocks[..n - 1]), Locs(blocks[n - 1].base, blocks[n - 1].objs));
      LocsSize(blocks[n - 1].base, blocks[n - 1].objs);
    }
  }

  lemma {:induction false} LocsSize(base: Addr, objs: seq<Obj>)
    ensures SizeOf(Locs(base, objs)) == Used(objs)
  {
    if objs != [] {
      LocsSize(base, objs[..|objs| - 1]);
      assert Locs(base, objs)[..|objs| - 1] == Locs(base, objs[..|objs| - 1]);
    }
  }

  lemma {:induction false} SizeAppend(x: seq<Loc>, y: seq<Loc>)
    ensures SizeOf(x + y) == SizeOf(x) + SizeOf(y)
  {
    if y == [] {
      assert x + y == x;
    } else {
      SizeAppend(x, y[..|y| - 1]);
      assert (x + y)[..|x + y| - 1] == x + y[..|y| - 1];
    }
  }

  // ----- live bytes

  /** The bytes of the objects not in dead, a set of positions in allocation order. */
  function LiveSize(ls: seq<Loc>, dead: set<nat>): nat {
    if ls == [] then 0
    else
      var n := |ls| - 1;
      LiveSize(ls[..n], dead) + if n in dead then 0 else ls[n].obj.size
  }

  lemma {:induction false} DeathSubtracts(ls: seq<Loc>, dead: set<nat>, k: nat)
    requires k < |ls| && k !in dead
    ensures LiveSize(ls, dead) == LiveSize(ls, dead + {k}) + ls[k].obj.size
  {
    var n := |ls| - 1;
    if k < n { DeathSubtracts(ls[..n], dead, k); } else { DeadBeyond(ls[..n], dead, k); }
  }

  lemma {:induction false} DeadBeyond(ls: seq<Loc>, dead: set<nat>, k: nat)
    requires |ls| <= k
    ensures LiveSize(ls, dead + {k}) == LiveSize(ls, dead)
  {
    if ls != [] { DeadBeyond(ls[..|ls| - 1], dead, k); }
  }

  lemma BirthAdds(ls: seq<Loc>, dead: set<nat>, l: Loc)
    requires |ls| !in dead
    ensures LiveSize(ls + [l], dead) == LiveSize(ls, dead) + l.obj.size
  {
    assert (ls + [l])[..|ls|] == ls;
  }

  lemma {:induction false} NoneDead(ls: seq<Loc>)
    ensures LiveSize(ls, {}) == SizeOf(ls)
  {
    if ls != [] { NoneDead(ls[..|ls| - 1]); }
  }

  // ----- the allocator

  /** An address range malloc must not hand out again. */
  datatype Range = Range(lo: Addr, hi: Addr)

  ghost predicate Clear(base: Addr, cap: nat, avoid: seq<Range>) {
    forall i :: 0 <= i < |avoid| ==> base + cap <= avoid[i].lo || avoid[i].hi <= base
  }

  ghost predicate FreshBase(base: Addr, cap: nat, blocks: seq<Block>, avoid: seq<Range>) {
    && base >= PAGE && base % 8 == 0 && Clear(base, cap, avoid)
    && forall i :: 0 <= i < |blocks| ==> Apart(blocks[i], Block(base, cap, []))
  }

  /** malloc as any function of the blocks so far: it answers with an aligned range apart from
      every block of this heap and every other range in use. */
  ghost predicate Mallocs(malloc: (seq<Block>, nat) -> Addr, avoid: seq<Range>) {
    forall blocks, cap :: FreshBase(malloc(blocks, cap), cap, blocks, avoid)
  }

  class Arena {
    const malloc: (seq<Block>, nat) -> Addr
    ghost const avoid: seq<Range>
    var blocks: seq<Block>
    var totalBytes: nat
    var usedBytes: nat
    var liveBytes: nat
    var nextBlockSize: nat
    /** Positions, in allocation order, of the objects whose death was recorded. */
    ghost var dead: set<nat>

    /** The live-byte counter means what it says. */
    ghost predicate Exact()
      reads this
    {
      liveBytes == LiveSize(Flat(blocks), dead) && forall k :: k in dead ==> k < |Flat(blocks)|
    }

    ghost predicate Valid()
      reads this
    {
      && Mallocs(malloc, avoid)
      && blocks != [] && BlocksOk(blocks)
      && (forall i :: 0 <= i < |blocks| ==> Clear(blocks[i].base, blocks[i].capacity, avoid))
      && usedBytes == UsedIn(blocks) && totalBytes == CapacityOf(blocks)
    }

    /** march_heap_init. */
    constructor (malloc: (seq<Block>, nat) -> Addr, ghost avoid: seq<Range>)
      requires Mallocs(malloc, avoid)
      ensures Valid() && Flat(blocks) == [] && usedBytes == liveBytes == 0
      ensures this.malloc == malloc && this.avoid == avoid && Exact()
    {
      this.malloc, this.avoid := malloc, avoid;
      var b := Block(malloc([], BLOCK_MIN), BLOCK_MIN, []);
      assert FreshBase(b.base, BLOCK_MIN, [], avoid);
      blocks := [b];
      totalBytes, usedBytes, liveBytes, nextBlockSize := BLOCK_MIN, 0, 0, BLOCK_MIN * 2;
      dead := {};
      assert [b][..0] == [];
      assert Flat([b]) == Flat([]) + Locs(b.base, []);
    }

    /** Link a new block in front and make it current: exactly large enough for an oversized
        request, otherwise by the doubling policy. */
    method NewBlock(total: nat)
      requires Valid()
      modifies this
      ensures Valid() && Flat(blocks) == old(Flat(blocks)) && usedBytes == old(usedBytes)
      ensures liveBytes == old(liveBytes) && dead == old(dead)
      ensures |blocks| == |old(blocks)| + 1 && blocks[|blocks| - 1].objs == [] && total <= blocks[|blocks| - 1].capacity
    {
      hide Flat, UsedIn, CapacityOf, Used;
      var cap := if total > nextBlockSize then total else nextBlockSize;
      var b := Block(malloc(blocks, cap), cap, []);
      assert FreshBase(b.base, cap, blocks, avoid);
      NothingUsed(b.base);
      FlatSnoc(blocks, b);
      assert Flat(blocks) + [] == Flat(blocks);
      blocks := blocks + [b];
      totalBytes := totalBytes + cap;
      nextBlockSize := if nextBlockSize * 2 > BLOCK_MAX then BLOCK_MAX else nextBlockSize * 2;
    }

    /** Bump the current block by one object, which fits. */
    method Bump(o: Obj) returns (p: Addr)
      requires Valid() && o.Ok() && Used(blocks[|blocks| - 1].objs) + o.size <= blocks[|blocks| - 1].capacity
      modifies this
      ensures Valid() && Flat(blocks) == old(Flat(blocks)) + [Loc(p, o)]
      ensures var objs := blocks[|blocks| - 1].objs; objs != [] && objs[|objs| - 1] == o
      ensures usedBytes == old(usedBytes) + o.size && liveBytes == old(liveBytes) + o.size && dead == old(dead)
    {
      hide Flat, Locs, Used, UsedIn, CapacityOf, Mallocs;
      var rest, b := blocks[..|blocks| - 1], blocks[|blocks| - 1];
      assert rest + [b] == blocks;
      FlatPush(rest, b, o);
      FlatSnoc(rest, b);
      FlatSnoc(rest, b.(objs := b.objs + [o]));
      LocsSnoc(b.base, b.objs, o);
      p := b.base + Used(b.objs) + META;
      blocks := rest + [b.(objs := b.objs + [o])];
      usedBytes := usedBytes + o.size;
      liveBytes := liveBytes + o.size;
    }

    /** march_process_alloc: bump-allocate sz bytes, header zeroed and rc set to 1. */
    method Alloc(sz: nat) returns (p: Addr)
      requires Valid() && sz >= HEADER
      modifies this
      ensures Valid()
      ensures var total := Align8(META + sz);
              var o := Obj(total, (sz - HEADER) / 8, 1, 0, 0, seq((total - META - HEADER) / 8, _ => 0));
              && Flat(blocks) == old(Flat(blocks)) + [Loc(p, o)]
              && usedBytes == old(usedBytes) + total && liveBytes == old(liveBytes) + total
      ensures var objs := blocks[|blocks| - 1].objs; objs != [] && objs[|objs| - 1].size == Align8(META + sz)
      ensures dead == old(dead) && (old(Exact()) ==> Exact())
    {
      hide Flat, UsedIn, CapacityOf, Mallocs, BlocksOk, LiveSize;
      var total := Align8(META + sz);
      if Used(blocks[|blocks| - 1].objs) + total > blocks[|blocks| - 1].capacity {
        NewBlock(total);
      }
      ghost var ls := Flat(blocks);
      p := Bump(Obj(total, (sz - HEADER) / 8, 1, 0, 0, seq((total - META - HEADER) / 8, _ => 0)));
      if old(Exact()) { BirthAdds(ls, dead, Flat(blocks)[|ls|]); }
    }

    /** Copy an object of the same size over the one just allocated. */
    method Overwrite(o: Obj)
      requires Valid() && o.Ok() && blocks[|blocks| - 1].objs != []
      requires var objs := blocks[|blocks| - 1].objs; o.size == objs[|objs| - 1].size
      modifies this`blocks
      ensures Valid()
      ensures var was := old(Flat(blocks));
              was != [] && Flat(blocks) == was[..|was| - 1] + [Loc(was[|was| - 1].addr, o)]
    {
      hide Flat, Locs, Used, UsedIn, CapacityOf, Mallocs;
      var rest, b := blocks[..|blocks| - 1], blocks[|blocks| - 1];
      var below := b.(objs := b.objs[..|b.objs| - 1]);
      ghost var last := b.objs[|b.objs| - 1];
      assert rest + [b] == blocks && below.objs + [last] == b.objs;
      FlatPush(rest, below, last);
      FlatPush(rest, below, o);
      FlatSnoc(rest, b);
      FlatSnoc(rest, below.(objs := below.objs + [o]));
      LocsSnoc(b.base, below.objs, last);
      LocsSnoc(b.base, below.objs, o);
      assert below.(objs := below.objs + [last]) == b;
      blocks := rest + [below.(objs := below.objs + [o])];
    }

    /** march_heap_record_death of the object at position k.  As long as each death is recorded once
        and with the object's own size, the subtraction never stops at zero and the counter stays
        the sum of the sizes of the objects not yet dead. */
    method RecordDeath(sz: nat, ghost k: nat)
      requires Valid()
      modifies this`liveBytes, this`dead
      ensures Valid() && dead == old(dead) + {k}
      ensures liveBytes == if old(liveBytes) >= Align8(META + sz) then old(liveBytes) - Align8(META + sz) else 0
      ensures var ls := Flat(blocks);
              old(Exact()) && k < |ls| && k !in old(dead) && ls[k].obj.size == Align8(META + sz) ==>
                Exact() && liveBytes + ls[k].obj.size == old(liveBytes)
    {
      hide Flat, UsedIn, CapacityOf, Mallocs, BlocksOk, LiveSize;
      var total := Align8(META + sz);
      if k < |Flat(blocks)| && k !in dead { DeathSubtracts(Flat(blocks), dead, k); }
      liveBytes := if liveBytes >= total then liveBytes - total else 0;
      dead := dead + {k};
    }
  }
}
