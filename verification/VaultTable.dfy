/** The Vault as a table, runtime/march_extras.c: 512 buckets in 16 shards, entries with an expiry
    time, and a graveyard per shard for the values it has stopped holding.

    Each operation below is one call under its shard's lock; the clock reading is a parameter. */
module VaultTable {
  import opened Wrappers

  const BUCKETS := 512   // VAULT_BUCKETS
  const SHARDS := 16     // VAULT_WR_SHARDS

  type Key = string

  const CONS_TAG := 1
  const STRING_TAG := -1
  const FLOAT_TAG := -3
  const SIMD_TAG := -4

  /** Stored words: a null, a tagged integer, a list with its elements, or another heap cell with
      its tag. */
  datatype Value = Null | Int(n: int) | ListOf(id: nat, elems: seq<Value>) | Cell(id: nat, tag: int)

  datatype Entry = Entry(value: Value, expires: int)
  datatype Node = Node(key: Key, entry: Entry)

  predicate IsHeap(v: Value) {
    v.ListOf? || v.Cell?
  }

  /** A cell without children: a string, a boxed float or a SIMD box. */
  predicate IsLeaf(v: Value) {
    v.Cell? && (v.tag == STRING_TAG || v.tag == FLOAT_TAG || v.tag == SIMD_TAG)
  }

  predicate Live(e: Entry, now: int) {
    e.expires == 0 || now <= e.expires
  }

  // ----- what the table means

  type View = map<Key, Entry>

  ghost predicate HasKey(nodes: seq<Node>, k: Key) {
    exists i :: 0 <= i < |nodes| && nodes[i].key == k
  }

  ghost predicate Refines(buckets: seq<seq<Node>>, hash: Key -> nat, view: View) {
    && |buckets| == BUCKETS && (forall k :: hash(k) < BUCKETS)
    && (forall b, i :: 0 <= b < |buckets| && 0 <= i < |buckets[b]| ==> NodeOk(buckets[b][i], b, hash, view))
    && (forall b, i, j :: 0 <= b < |buckets| && 0 <= i < j < |buckets[b]| ==> buckets[b][i].key != buckets[b][j].key)
    && (forall k :: k in view ==> HasKey(buckets[hash(k)], k))
  }

  ghost predicate NodeOk(n: Node, b: nat, hash: Key -> nat, view: View) {
    hash(n.key) == b && n.key in view && view[n.key] == n.entry
  }

  lemma FoundMeans(buckets: seq<seq<Node>>, hash: Key -> nat, view: View, k: Key, i: nat)
    requires Refines(buckets, hash, view)
    requires i <= |buckets[hash(k)]| && (forall j :: 0 <= j < i ==> buckets[hash(k)][j].key != k)
    requires i < |buckets[hash(k)]| ==> buckets[hash(k)][i].key == k
    ensures k in view <==> i < |buckets[hash(k)]|
    ensures k in view ==> view[k] == buckets[hash(k)][i].entry
  {
  }

  lemma ReplaceRefines(buckets: seq<seq<Node>>, hash: Key -> nat, view: View, k: Key, i: nat, e: Entry)
    requires Refines(buckets, hash, view) && i < |buckets[hash(k)]| && buckets[hash(k)][i].key == k
    ensures Refines(buckets[hash(k) := buckets[hash(k)][i := Node(k, e)]], hash, view[k := e])
  {
    var h := hash(k);
    var after := buckets[h := buckets[h][i := Node(k, e)]];
    forall b, j | 0 <= b < |after| && 0 <= j < |after[b]|
      ensures NodeOk(after[b][j], b, hash, view[k := e])
    {
      assert NodeOk(buckets[b][j], b, hash, view);
    }
    forall x | x in view[k := e]
      ensures HasKey(after[hash(x)], x)
    {
      if x == k {
        assert after[h][i].key == k;
      } else {
        assert HasKey(buckets[hash(x)], x);
        var j :| 0 <= j < |buckets[hash(x)]| && buckets[hash(x)][j].key == x;
        assert after[hash(x)][j].key == x;
      }
    }
  }

  lemma Prepended(n: Node, nodes: seq<Node>)
    ensures HasKey([n] + nodes, n.key) && forall x :: HasKey(nodes, x) ==> HasKey([n] + nodes, x)
  {
    assert ([n] + nodes)[0].key == n.key;
    forall x | HasKey(nodes, x)
      ensures HasKey([n] + nodes, x)
    {
      var j :| 0 <= j < |nodes| && nodes[j].key == x;
      assert ([n] + nodes)[j + 1].key == x;
    }
  }

  lemma InsertRefines(buckets: seq<seq<Node>>, hash: Key -> nat, view: View, k: Key, e: Entry)
    requires Refines(buckets, hash, view) && k !in view
    ensures Refines(buckets[hash(k) := [Node(k, e)] + buckets[hash(k)]], hash, view[k := e])
  {
    hide HasKey;
    var h := hash(k);
    Prepended(Node(k, e), buckets[h]);
    var after := buckets[h := [Node(k, e)] + buckets[h]];
    forall b, j | 0 <= b < |after| && 0 <= j < |after[b]|
      ensures NodeOk(after[b][j], b, hash, view[k := e])
      ensures b != h || j > 0 ==> after[b][j].key != k
    {
      if b != h {
        assert NodeOk(buckets[b][j], b, hash, view);
      } else if j > 0 {
        assert NodeOk(buckets[b][j - 1], b, hash, view);
      }
    }
    forall x | x in view[k := e]
      ensures HasKey(after[hash(x)], x)
    {
      if x != k { assert HasKey(buckets[hash(x)], x); }
    }
  }

  /** The other nodes of a bucket after one is removed. */
  lemma Removed(nodes: seq<Node>, i: nat)
    requires i < |nodes|
    ensures var less := nodes[..i] + nodes[i + 1..];
            && (forall j :: 0 <= j < |less| ==> less[j] == nodes[if j < i then j else j + 1])
            && (forall x :: HasKey(nodes, x) && x != nodes[i].key ==> HasKey(less, x))
  {
    var less := nodes[..i] + nodes[i + 1..];
    forall x | HasKey(nodes, x) && x != nodes[i].key
      ensures HasKey(less, x)
    {
      var j :| 0 <= j < |nodes| && nodes[j].key == x;
      assert less[if j < i then j else j - 1].key == x;
    }
  }

  lemma RemoveRefines(buckets: seq<seq<Node>>, hash: Key -> nat, view: View, k: Key, i: nat)
    requires Refines(buckets, hash, view) && i < |buckets[hash(k)]| && buckets[hash(k)][i].key == k
    ensures var nodes := buckets[hash(k)];
            Refines(buckets[hash(k) := nodes[..i] + nodes[i + 1..]], hash, view - {k})
  {
    hide HasKey;
    var h := hash(k);
    var nodes := buckets[h];
    Removed(nodes, i);
    var after := buckets[h := nodes[..i] + nodes[i + 1..]];
    forall b, j | 0 <= b < |after| && 0 <= j < |after[b]|
      ensures NodeOk(after[b][j], b, hash, view - {k})
    {
      if b == h {
        assert NodeOk(nodes[if j < i then j else j + 1], b, hash, view);
      } else {
        assert NodeOk(buckets[b][j], b, hash, view);
      }
    }
    forall x | x in view && x != k
      ensures HasKey(after[hash(x)], x)
    {
      assert HasKey(buckets[hash(x)], x);
    }
  }

  // ----- reference accounting

  /** The one reference that storing v takes; immediates have none. */
  function Hold(v: Value): multiset<Value> {
    if IsHeap(v) then multiset{v} else multiset{}
  }

  /** The heap values among s. */
  function HeapOnes(s: seq<Value>): multiset<Value> {
    if s == [] then multiset{} else HeapOnes(s[..|s| - 1]) + Hold(s[|s| - 1])
  }

  function NodeRefs(nodes: seq<Node>): multiset<Value> {
    if nodes == [] then multiset{} else Hold(nodes[0].entry.value) + NodeRefs(nodes[1..])
  }

  function BucketRefs(buckets: seq<seq<Node>>): multiset<Value> {
    if buckets == [] then multiset{} else NodeRefs(buckets[0]) + BucketRefs(buckets[1..])
  }

  function DeadRefs(dead: seq<seq<Value>>): multiset<Value> {
    if dead == [] then multiset{} else multiset(dead[0]) + DeadRefs(dead[1..])
  }

  lemma Carry(h: multiset<Value>, x: multiset<Value>, was: multiset<Value>, y: multiset<Value>, now: multiset<Value>)
    requires x + was == y + now
    ensures h + x + was == h + y + now
  {
    assert h + x + was == h + (x + was);
  }

  lemma {:induction false} NodeRefsReplace(nodes: seq<Node>, i: nat, n: Node)
    requires i < |nodes|
    ensures NodeRefs(nodes[i := n]) + Hold(nodes[i].entry.value) == NodeRefs(nodes) + Hold(n.entry.value)
  {
    hide Hold;
    if i == 0 {
      assert nodes[i := n][1..] == nodes[1..];
    } else {
      NodeRefsReplace(nodes[1..], i - 1, n);
      Carry(Hold(nodes[0].entry.value), NodeRefs(nodes[1..][i - 1 := n]), Hold(nodes[i].entry.value),
            NodeRefs(nodes[1..]), Hold(n.entry.value));
      assert nodes[i := n][1..] == nodes[1..][i - 1 := n];
    }
  }

  lemma {:induction false} NodeRefsRemove(nodes: seq<Node>, i: nat)
    requires i < |nodes|
    ensures NodeRefs(nodes[..i] + nodes[i + 1..]) + Hold(nodes[i].entry.value) == NodeRefs(nodes)
  {
    hide Hold;
    if i == 0 {
      assert nodes[..i] + nodes[i + 1..] == nodes[1..];
    } else {
      NodeRefsRemove(nodes[1..], i - 1);
      assert (nodes[..i] + nodes[i + 1..])[1..] == nodes[1..][..i - 1] + nodes[1..][i..];
    }
  }

  lemma {:induction false} BucketRefsReplace(buckets: seq<seq<Node>>, b: nat, nodes: seq<Node>)
    requires b < |buckets|
    ensures BucketRefs(buckets[b := nodes]) + NodeRefs(buckets[b]) == BucketRefs(buckets) + NodeRefs(nodes)
  {
    hide NodeRefs;
    if b == 0 {
      assert buckets[b := nodes][1..] == buckets[1..];
    } else {
      BucketRefsReplace(buckets[1..], b - 1, nodes);
      Carry(NodeRefs(buckets[0]), BucketRefs(buckets[1..][b - 1 := nodes]), NodeRefs(buckets[b]),
            BucketRefs(buckets[1..]), NodeRefs(nodes));
      assert buckets[b := nodes][1..] == buckets[1..][b - 1 := nodes];
    }
  }

  lemma {:induction false} DeadRefsReplace(dead: seq<seq<Value>>, b: nat, vs: seq<Value>)
    requires b < |dead|
    ensures DeadRefs(dead[b := vs]) + multiset(dead[b]) == DeadRefs(dead) + multiset(vs)
  {
    if b == 0 {
      assert dead[b := vs][1..] == dead[1..];
    } else {
      DeadRefsReplace(dead[1..], b - 1, vs);
      Carry(multiset(dead[0]), DeadRefs(dead[1..][b - 1 := vs]), multiset(dead[b]), DeadRefs(dead[1..]), multiset(vs));
      assert dead[b := vs][1..] == dead[1..][b - 1 := vs];
    }
  }

  /** Every reference the table ever took, those it released as leaves, those it handed back. */
  datatype Books = Books(taken: multiset<Value>, released: multiset<Value>, returned: multiset<Value>)

  /** The books are balanced: every reference taken is in a bucket, in a graveyard, was released as
      a leaf, or was handed back. */
  ghost predicate Balanced(buckets: seq<seq<Node>>, dead: seq<seq<Value>>, b: Books) {
    && b.taken == BucketRefs(buckets) + DeadRefs(dead) + b.released + b.returned
    && forall v :: v in b.released ==> IsLeaf(v)
  }

  /** The graveyards after v is buried in shard sh. */
  function Buried(dead: seq<seq<Value>>, sh: nat, v: Value): (r: seq<seq<Value>>)
    requires sh < |dead|
    ensures |r| == |dead|
  {
    if IsHeap(v) && !IsLeaf(v) then dead[sh := dead[sh] + [v]] else dead
  }

  function Freed(v: Value): multiset<Value> {
    if IsLeaf(v) then multiset{v} else multiset{}
  }

  lemma BuryMoves(dead: seq<seq<Value>>, sh: nat, v: Value)
    requires sh < |dead|
    ensures DeadRefs(Buried(dead, sh, v)) + Freed(v) == DeadRefs(dead) + Hold(v)
  {
    if IsHeap(v) && !IsLeaf(v) {
      var vs := dead[sh] + [v];
      DeadRefsReplace(dead, sh, vs);
      hide DeadRefs;
      assert multiset(vs) == multiset(dead[sh]) + Hold(v);
      Cancel(DeadRefs(dead[sh := vs]), multiset(dead[sh]), DeadRefs(dead), Hold(v));
    }
  }

  lemma Cancel(x: multiset<Value>, a: multiset<Value>, y: multiset<Value>, b: multiset<Value>)
    requires x + a == y + (a + b)
    ensures x == y + b
  {
    forall v
      ensures x[v] == (y + b)[v]
    {
      assert (x + a)[v] == (y + (a + b))[v];
    }
  }

  /** The books after taking one value and releasing another. */
  function Booked(b: Books, now: multiset<Value>, freed: multiset<Value>): Books {
    b.(taken := b.taken + now, released := b.released + freed)
  }

  /** Overwriting: the old value is buried, the new one is taken. */
  lemma ReplaceBalances(buckets: seq<seq<Node>>, dead: seq<seq<Value>>, books: Books, b: nat, i: nat, sh: nat, n: Node)
    requires Balanced(buckets, dead, books) && b < |buckets| && i < |buckets[b]| && sh < |dead|
    ensures var v := buckets[b][i].entry.value;
            Balanced(buckets[b := buckets[b][i := n]], Buried(dead, sh, v),
                     Booked(books, Hold(n.entry.value), Freed(v)))
  {
    hide Hold, NodeRefs, BucketRefs, DeadRefs, Buried, Freed, Balanced, Booked;
    var v := buckets[b][i].entry.value;
    var nodes := buckets[b][i := n];
    BuryMoves(dead, sh, v);
    BucketRefsReplace(buckets, b, nodes);
    NodeRefsReplace(buckets[b], i, n);
    ReplaceSums(BucketRefs(buckets[b := nodes]), NodeRefs(buckets[b]), BucketRefs(buckets), NodeRefs(nodes),
                Hold(v), Hold(n.entry.value), DeadRefs(Buried(dead, sh, v)), Freed(v), DeadRefs(dead));
    Rebalance(buckets, dead, books, buckets[b := nodes], Buried(dead, sh, v), v, Hold(n.entry.value));
  }

  /** Enough for the books to stay balanced when a value comes in and v goes. */
  lemma Rebalance(buckets: seq<seq<Node>>, dead: seq<seq<Value>>, books: Books,
                  buckets': seq<seq<Node>>, dead': seq<seq<Value>>, v: Value, now: multiset<Value>)
    requires Balanced(buckets, dead, books)
    requires BucketRefs(buckets') + DeadRefs(dead') + Freed(v) == BucketRefs(buckets) + DeadRefs(dead) + now
    ensures Balanced(buckets', dead', Booked(books, now, Freed(v)))
  {
    hide BucketRefs, DeadRefs;
    var b, d, b', d' := BucketRefs(buckets), DeadRefs(dead), BucketRefs(buckets'), DeadRefs(dead');
    forall x
      ensures (books.taken + now)[x] == (b' + d' + (books.released + Freed(v)) + books.returned)[x]
    {
      assert (b' + d' + Freed(v))[x] == (b + d + now)[x];
      assert books.taken[x] == (b + d + books.released + books.returned)[x];
    }
  }

  lemma ReplaceSums(b1: multiset<Value>, n0: multiset<Value>, b0: multiset<Value>, n1: multiset<Value>,
                    was: multiset<Value>, now: multiset<Value>,
                    d1: multiset<Value>, freed: multiset<Value>, d0: multiset<Value>)
    requires b1 + n0 == b0 + n1 && n1 + was == n0 + now && d1 + freed == d0 + was
    ensures b1 + d1 + freed == b0 + d0 + now
  {
    forall v
      ensures (b1 + d1 + freed)[v] == (b0 + d0 + now)[v]
    {
      assert (b1 + n0)[v] == (b0 + n1)[v] && (n1 + was)[v] == (n0 + now)[v] && (d1 + freed)[v] == (d0 + was)[v];
    }
  }

  lemma NodeRefsCons(n: Node, nodes: seq<Node>)
    ensures NodeRefs([n] + nodes) + multiset{} == NodeRefs(nodes) + Hold(n.entry.value)
  {
    assert ([n] + nodes)[1..] == nodes;
  }

  lemma InsertBalances(buckets: seq<seq<Node>>, dead: seq<seq<Value>>, books: Books, b: nat, n: Node)
    requires Balanced(buckets, dead, books) && b < |buckets|
    ensures Balanced(buckets[b := [n] + buckets[b]], dead, Booked(books, Hold(n.entry.value), Freed(Null)))
  {
    hide Hold, NodeRefs, BucketRefs, DeadRefs, Balanced;
    var nodes, now := [n] + buckets[b], Hold(n.entry.value);
    NodeRefsCons(n, buckets[b]);
    BucketRefsReplace(buckets, b, nodes);
    ReplaceSums(BucketRefs(buckets[b := nodes]), NodeRefs(buckets[b]), BucketRefs(buckets), NodeRefs(nodes),
                multiset{}, now, DeadRefs(dead), multiset{}, DeadRefs(dead));
    Rebalance(buckets, dead, books, buckets[b := nodes], dead, Null, now);
  }

  lemma RemoveBalances(buckets: seq<seq<Node>>, dead: seq<seq<Value>>, books: Books, b: nat, i: nat, sh: nat)
    requires Balanced(buckets, dead, books) && b < |buckets| && i < |buckets[b]| && sh < |dead|
    ensures var nodes, v := buckets[b], buckets[b][i].entry.value;
            Balanced(buckets[b := nodes[..i] + nodes[i + 1..]], Buried(dead, sh, v),
                     Booked(books, Hold(Null), Freed(v)))
  {
    hide NodeRefs, BucketRefs, DeadRefs, Buried, Freed, Balanced, Booked;
    var v := buckets[b][i].entry.value;
    var less := buckets[b][..i] + buckets[b][i + 1..];
    BuryMoves(dead, sh, v);
    BucketRefsReplace(buckets, b, less);
    NodeRefsRemove(buckets[b], i);
    ReplaceSums(BucketRefs(buckets[b := less]), NodeRefs(buckets[b]), BucketRefs(buckets), NodeRefs(less),
                Hold(v), Hold(Null), DeadRefs(Buried(dead, sh, v)), Freed(v), DeadRefs(dead));
    Rebalance(buckets, dead, books, buckets[b := less], Buried(dead, sh, v), v, Hold(Null));
  }

  function HandBack(b: Books, vs: multiset<Value>): Books {
    b.(returned := b.returned + vs)
  }

  /** Handing a graveyard back. */
  lemma ReapBalances(buckets: seq<seq<Node>>, dead: seq<seq<Value>>, books: Books, sh: nat)
    requires Balanced(buckets, dead, books) && sh < |dead|
    ensures Balanced(buckets, dead[sh := []], HandBack(books, multiset(dead[sh])))
  {
    hide BucketRefs, DeadRefs;
    DeadRefsReplace(dead, sh, []);
    assert DeadRefs(dead[sh := []]) + multiset(dead[sh]) == DeadRefs(dead);
  }

  // ----- the element references of pushed lists

  /** The references the cells of these lists hold to their elements. */
  function SpineRefs(lists: seq<Value>): multiset<Value> {
    if lists == [] then multiset{}
    else
      var l := lists[|lists| - 1];
      SpineRefs(lists[..|lists| - 1]) + (if l.ListOf? then HeapOnes(l.elems) else multiset{})
  }

  /** Each element reference a push took belongs to one list built by a push, and the reference to
      that list is one the table took. */
  ghost predicate SpinesOk(built: seq<Value>, elemRefs: multiset<Value>, taken: multiset<Value>) {
    && elemRefs == SpineRefs(built) && multiset(built) <= taken
    && forall i :: 0 <= i < |built| ==> built[i].ListOf?
  }

  lemma SpinesGrow(built: seq<Value>, elemRefs: multiset<Value>, taken: multiset<Value>, list: Value)
    requires SpinesOk(built, elemRefs, taken) && list.ListOf?
    ensures SpinesOk(built + [list], elemRefs + HeapOnes(list.elems), taken + Hold(list))
  {
    assert (built + [list])[..|built|] == built;
    assert multiset(built + [list]) == multiset(built) + multiset{list};
  }

  /** So every list built by a push, with its element references, is in a bucket or a graveyard or
      was handed back: lists are never released. */
  lemma SpinesAccounted(buckets: seq<seq<Node>>, dead: seq<seq<Value>>, books: Books,
                        built: seq<Value>, elemRefs: multiset<Value>)
    requires Balanced(buckets, dead, books) && SpinesOk(built, elemRefs, books.taken)
    ensures multiset(built) <= BucketRefs(buckets) + DeadRefs(dead) + books.returned
  {
    hide BucketRefs, DeadRefs;
    var rest := BucketRefs(buckets) + DeadRefs(dead) + books.returned;
    forall v
      ensures multiset(built)[v] <= rest[v]
    {
      assert books.taken[v] == (BucketRefs(buckets) + DeadRefs(dead) + books.released + books.returned)[v];
      if v in multiset(built) {
        var i :| 0 <= i < |built| && built[i] == v;
        assert v !in books.released;
      }
    }
  }

  // ----- the operations on the abstract table

  /** The elements of the list a push starts from. */
  function Elems(view: View, k: Key, now: int): seq<Value> {
    if k in view && Live(view[k], now) && view[k].value.ListOf? then view[k].value.elems else []
  }

  /** The last max elements; all of them when max is not positive. */
  function Keep(s: seq<Value>, max: int): (r: seq<Value>) {
    if 0 < max < |s| then s[|s| - max..] else s
  }

  /** The integer an increment starts from. */
  function Counter(view: View, k: Key, now: int): int {
    if k in view && Live(view[k], now) && view[k].value.Int? then view[k].value.n else 0
  }

  /** The expiry an in-place update leaves: kept while the entry is live, cleared otherwise. */
  function KeptExpiry(view: View, k: Key, now: int): int {
    if k in view && Live(view[k], now) then view[k].expires else 0
  }

  /** What a write to k displaces. */
  function Displaced(view: View, k: Key): Value {
    if k in view then view[k].value else Null
  }

  /** Values a push can start from: the code reads a live value's tag, so it must be null or a heap
      cell, and one that is no list must not carry the tag of a Cons. */
  predicate Pushable(view: View, k: Key, now: int) {
    k in view && Live(view[k], now) ==> !view[k].value.Int? && !(view[k].value.Cell? && view[k].value.tag == CONS_TAG)
  }

  class Table {
    const hash: Key -> nat
    var buckets: seq<seq<Node>>
    var dead: seq<seq<Value>>
    ghost var view: View
    ghost var books: Books
    /** The lists built by pushes, and the element references taken for their cells. */
    ghost var built: seq<Value>
    ghost var elemRefs: multiset<Value>

    ghost predicate Valid()
      reads this
    {
      && |buckets| == BUCKETS && |dead| == SHARDS && (forall k :: hash(k) < BUCKETS)
      && Refines(buckets, hash, view)
      && Balanced(buckets, dead, books)
      && SpinesOk(built, elemRefs, books.taken)
    }

    /** One write to k: the entry, the graveyard of the key's shard, and the books. */
    ghost predicate Wrote(k: Key, e: Entry, was: View, dead0: seq<seq<Value>>, books0: Books)
      reads this
      requires |dead0| == SHARDS
    {
      && view == was[k := e]
      && dead == Buried(dead0, hash(k) % SHARDS, Displaced(was, k))
      && books == Booked(books0, Hold(e.value), Freed(Displaced(was, k)))
    }

    constructor (hash: Key -> nat)
      requires forall k :: hash(k) < BUCKETS
      ensures Valid() && view == map[] && this.hash == hash
      ensures books == Books(multiset{}, multiset{}, multiset{}) && built == [] && elemRefs == multiset{}
    {
      this.hash := hash;
      buckets := seq(BUCKETS, _ => []);
      dead := seq(SHARDS, _ => []);
      view, books := map[], Books(multiset{}, multiset{}, multiset{});
      built, elemRefs := [], multiset{};
      new;
      EmptyBalances(buckets, dead);
    }

    /** Walk the key's bucket. */
    method Locate(k: Key) returns (i: nat)
      requires Valid()
      ensures i <= |buckets[hash(k)]| && (k in view <==> i < |buckets[hash(k)]|)
      ensures k in view ==> buckets[hash(k)][i] == Node(k, view[k])
    {
      var nodes := buckets[hash(k)];
      i := 0;
      while i < |nodes|
        invariant i <= |nodes| && forall j :: 0 <= j < i ==> nodes[j].key != k
      {
        if nodes[i].key == k { break; }
        i := i + 1;
      }
      FoundMeans(buckets, hash, view, k, i);
    }

    /** Overwrite node i, burying what it held. */
    method Overwrite(k: Key, i: nat, e: Entry)
      requires Valid() && k in view && i < |buckets[hash(k)]| && buckets[hash(k)][i] == Node(k, view[k])
      modifies this`buckets, this`dead, this`view, this`books
      ensures Valid() && Wrote(k, e, old(view), old(dead), old(books))
    {
      hide Refines, Balanced, SpineRefs, Hold, Freed;
      var h := hash(k);
      var nodes := buckets[h];
      var v := nodes[i].entry.value;
      ReplaceRefines(buckets, hash, view, k, i, e);
      ReplaceBalances(buckets, dead, books, h, i, h % SHARDS, Node(k, e));
      dead := Buried(dead, h % SHARDS, v);
      buckets := buckets[h := nodes[i := Node(k, e)]];
      view, books := view[k := e], Booked(books, Hold(e.value), Freed(v));
    }

    /** Put a new node at the head of the bucket. */
    method Insert(k: Key, e: Entry)
      requires Valid() && k !in view
      modifies this`buckets, this`dead, this`view, this`books
      ensures Valid() && Wrote(k, e, old(view), old(dead), old(books))
    {
      hide Refines, Balanced, SpineRefs, Hold;
      var h := hash(k);
      InsertRefines(buckets, hash, view, k, e);
      InsertBalances(buckets, dead, books, h, Node(k, e));
      buckets := buckets[h := [Node(k, e)] + buckets[h]];
      view, books := view[k := e], Booked(books, Hold(e.value), Freed(Null));
    }

    /** Overwrite or insert: the shape of every unconditional write. */
    method Write(k: Key, e: Entry)
      requires Valid()
      modifies this`buckets, this`dead, this`view, this`books
      ensures Valid() && Wrote(k, e, old(view), old(dead), old(books))
    {
      hide Refines, Balanced, SpinesOk;
      var i := Locate(k);
      if i < |buckets[hash(k)]| { Overwrite(k, i, e); } else { Insert(k, e); }
    }

    /** vault_set_in. */
    method Set(k: Key, v: Value)
      requires Valid()
      modifies this`buckets, this`dead, this`view, this`books
      ensures Valid() && Wrote(k, Entry(v, 0), old(view), old(dead), old(books))
    {
      Write(k, Entry(v, 0));
    }

    /** vault_set_ttl_in. */
    method SetTtl(k: Key, v: Value, ttl: int, now: int)
      requires Valid()
      modifies this`buckets, this`dead, this`view, this`books
      ensures Valid() && Wrote(k, Entry(v, now + ttl * 1000), old(view), old(dead), old(books))
    {
      Write(k, Entry(v, now + ttl * 1000));
    }

    /** vault_put_new_in. */
    method PutNew(k: Key, v: Value, ttl: int, now: int) returns (won: bool)
      requires Valid()
      modifies this`buckets, this`dead, this`view, this`books
      ensures Valid() && (won <==> k !in old(view) || !Live(old(view)[k], now))
      ensures won ==> Wrote(k, Entry(v, if ttl > 0 then now + ttl * 1000 else 0), old(view), old(dead), old(books))
      ensures !won ==> unchanged(this)
    {
      hide Refines, Balanced, SpinesOk;
      var expires := if ttl > 0 then now + ttl * 1000 else 0;
      var i := Locate(k);
      if i < |buckets[hash(k)]| {
        var e := buckets[hash(k)][i].entry;
        if e.expires == 0 || now <= e.expires { return false; }
        Overwrite(k, i, Entry(v, expires));
        return true;
      }
      Insert(k, Entry(v, expires));
      return true;
    }

    /** vault_incr_in. */
    method Incr(k: Key, delta: int, now: int) returns (nv: int)
      requires Valid()
      modifies this`buckets, this`dead, this`view, this`books
      ensures Valid() && nv == Counter(old(view), k, now) + delta
      ensures Wrote(k, Entry(Int(nv), KeptExpiry(old(view), k, now)), old(view), old(dead), old(books))
    {
      hide Refines, Balanced, SpinesOk, Table.Wrote;
      var i := Locate(k);
      if i < |buckets[hash(k)]| {
        var e := buckets[hash(k)][i].entry;
        var live := e.expires == 0 || now <= e.expires;
        var cur := if live && e.value.Int? then e.value.n else 0;
        nv := cur + delta;
        Overwrite(k, i, Entry(Int(nv), if live then e.expires else 0));
      } else {
        nv := delta;
        Insert(k, Entry(Int(nv), 0));
      }
    }

    /** vault_push_capped_in; id names the new list. */
    method PushCapped(k: Key, v: Value, max: int, now: int, id: nat)
      requires Valid() && Pushable(view, k, now)
      modifies this
      ensures Valid()
      ensures var list := ListOf(id, Keep(Elems(old(view), k, now) + [v], max));
              && Wrote(k, Entry(list, KeptExpiry(old(view), k, now)), old(view), old(dead), old(books))
              && built == old(built) + [list] && elemRefs == old(elemRefs) + HeapOnes(list.elems)
    {
      hide Refines, Balanced, SpinesOk, HeapOnes, Keep, Elems, KeptExpiry, Buried;
      var i, e := NextList(k, v, max, now, id);
      SpinesGrow(built, elemRefs, books.taken, e.value);
      if i < |buckets[hash(k)]| { Overwrite(k, i, e); } else { Insert(k, e); }
      built, elemRefs := built + [e.value], elemRefs + HeapOnes(e.value.elems);
    }

    /** Where k is found, and the entry a push will store there: a capped copy of the live list with v
        at its end, under the live entry's expiry. */
    method NextList(k: Key, v: Value, max: int, now: int, id: nat) returns (i: nat, e: Entry)
      requires Valid() && Pushable(view, k, now)
      ensures i <= |buckets[hash(k)]| && (k in view <==> i < |buckets[hash(k)]|)
      ensures k in view ==> buckets[hash(k)][i] == Node(k, view[k])
      ensures e == Entry(ListOf(id, Keep(Elems(view, k, now) + [v], max)), KeptExpiry(view, k, now))
    {
      hide Refines, Balanced, SpinesOk, Keep;
      i := Locate(k);
      var found := i < |buckets[hash(k)]|;
      var live := found && Live(buckets[hash(k)][i].entry, now);
      var oldList := if live then buckets[hash(k)][i].entry.value else Null;
      var list := Window(if oldList.ListOf? then oldList.elems else [], v, max);
      e := Entry(ListOf(id, list), if live then buckets[hash(k)][i].entry.expires else 0);
    }

    /** vault_get_in: the value of a live entry. */
    method Get(k: Key, now: int) returns (r: Option<Value>)
      requires Valid()
      ensures r == if k in view && Live(view[k], now) then Some(view[k].value) else None
    {
      hide Refines, Balanced, SpinesOk;
      var i := Locate(k);
      if i == |buckets[hash(k)]| { return None; }
      var e := buckets[hash(k)][i].entry;
      if e.expires != 0 && now > e.expires { return None; }
      return Some(e.value);
    }

    /** vault_drop_in. */
    method Drop(k: Key)
      requires Valid()
      modifies this`buckets, this`dead, this`view, this`books
      ensures Valid() && view == old(view) - {k}
      ensures dead == Buried(old(dead), hash(k) % SHARDS, Displaced(old(view), k))
      ensures books == Booked(old(books), Hold(Null), Freed(Displaced(old(view), k)))
    {
      hide Refines, Balanced, SpineRefs;
      var i := Locate(k);
      var h := hash(k);
      if i < |buckets[h]| {
        var nodes := buckets[h];
        RemoveRefines(buckets, hash, view, k, i);
        RemoveBalances(buckets, dead, books, h, i, h % SHARDS);
        books := Booked(books, Hold(Null), Freed(nodes[i].entry.value));
        dead := Buried(dead, h % SHARDS, nodes[i].entry.value);
        buckets := buckets[h := nodes[..i] + nodes[i + 1..]];
        view := view - {k};
      }
    }

    /** vault_reap_in: the graveyard of the key's shard, emptied. */
    method Reap(k: Key) returns (list: seq<Value>)
      requires Valid()
      modifies this`dead, this`books
      ensures Valid() && list == old(dead)[hash(k) % SHARDS] && dead == old(dead)[hash(k) % SHARDS := []]
      ensures books == HandBack(old(books), multiset(list))
    {
      list := TakeDead(hash(k) % SHARDS);
    }

    /** vault_take_dead. */
    method TakeDead(sh: nat) returns (list: seq<Value>)
      requires Valid() && sh < SHARDS
      modifies this`dead, this`books
      ensures Valid() && list == old(dead)[sh] && dead == old(dead)[sh := []]
      ensures books == HandBack(old(books), multiset(list))
    {
      hide Refines, Balanced, SpineRefs;
      ReapBalances(buckets, dead, books, sh);
      list := dead[sh];
      dead := dead[sh := []];
      books := HandBack(books, multiset(list));
    }

    /** Detach one bucket. */
    method TakeBucket(b: nat) returns (nodes: seq<Node>)
      requires Valid() && b < BUCKETS
      modifies this`buckets, this`view, this`books
      ensures Valid() && view == (map k | k in old(view) && hash(k) != b :: old(view)[k])
      ensures nodes == old(buckets)[b] && buckets == old(buckets)[b := []]
      ensures books == HandBack(old(books), NodeRefs(nodes))
    {
      hide Refines, Balanced, SpineRefs, NodeRefs;
      nodes := buckets[b];
      EmptyRefines(buckets, hash, view, b);
      TakeBalances(buckets, dead, books, b);
      buckets := buckets[b := []];
      view := map k | k in view && hash(k) != b :: view[k];
      books := HandBack(books, NodeRefs(nodes));
    }

    /** One shard of vault_close_in: every node of its buckets, and its graveyard. */
    method CloseShard(si: nat, tail: seq<Value>) returns (list: seq<Value>)
      requires Valid() && si < SHARDS
      modifies this`buckets, this`dead, this`view, this`books
      ensures Valid() && dead == old(dead)[si := []]
      ensures forall b :: 0 <= b < BUCKETS ==> buckets[b] == if b % SHARDS == si then [] else old(buckets)[b]
      ensures books.taken == old(books.taken) && books.released == old(books.released)
      ensures books.returned + multiset(tail) == old(books.returned) + multiset(list)
    {
      hide Refines, Balanced, SpinesOk, NodeRefs;
      var nodes: seq<Node> := [];
      var i := si;
      NothingHeld();
      while i < BUCKETS
        invariant i % SHARDS == si && i < BUCKETS + SHARDS
        invariant Valid() && dead == old(dead)
        invariant books.taken == old(books.taken) && books.released == old(books.released)
        invariant forall b :: 0 <= b < BUCKETS ==>
                    buckets[b] == if b < i && b % SHARDS == si then [] else old(buckets)[b]
        invariant books.returned == old(books.returned) + NodeRefs(nodes)
      {
        ghost var before := nodes;
        var b := TakeBucket(i);
        ModStep(i);
        nodes := Reversed(b) + nodes;
        ReversedRefs(b, before);
        Regroup(old(books.returned), NodeRefs(before), NodeRefs(b));
        i := i + SHARDS;
      }
      var d := TakeDead(si);
      list := ConsValues(nodes, d + tail);
    }

    /** vault_close_in: everything the table held, and the table empty. */
    method Close() returns (list: seq<Value>)
      requires Valid()
      modifies this`buckets, this`dead, this`view, this`books
      ensures Valid() && view == map[]
      ensures multiset(list) == BucketRefs(old(buckets)) + DeadRefs(old(dead))
      ensures books.taken == old(books.taken) == books.released + books.returned
      ensures multiset(built) <= books.returned
    {
      hide Refines, NodeRefs, BucketRefs, DeadRefs, SpineRefs;
      list := [];
      for si := 0 to SHARDS
        invariant Valid() && books.taken == old(books.taken) && books.released == old(books.released)
        invariant forall b :: 0 <= b < BUCKETS && b % SHARDS < si ==> buckets[b] == []
        invariant forall s :: 0 <= s < si ==> dead[s] == []
        invariant books.returned == old(books.returned) + multiset(list)
      {
        ghost var before, tail := books.returned, list;
        list := CloseShard(si, list);
        Cancel2(books.returned, multiset(tail), old(books.returned), multiset(list), before);
      }
      EmptyMeans(buckets, dead, hash, view);
      HandedBack(old(buckets), old(dead), old(books), buckets, dead, books, multiset(list));
      SpinesAccounted(buckets, dead, books, built, elemRefs);
    }
  }

  /** Append the value and keep the last max: count, collect, then cons from the tail. */
  method Window(elems: seq<Value>, v: Value, max: int) returns (list: seq<Value>)
    ensures list == Keep(elems + [v], max)
  {
    var total := |elems| + 1;
    var keep := if max > 0 && total > max then max else total;
    var drop := total - keep;
    var arr := elems + [v];
    list := [];
    var i := total;
    while i > drop
      invariant drop <= i <= total && list == arr[i..]
    {
      i := i - 1;
      list := [arr[i]] + list;
    }
  }

  lemma EmptyBalances(buckets: seq<seq<Node>>, dead: seq<seq<Value>>)
    requires forall b :: 0 <= b < |buckets| ==> buckets[b] == []
    requires forall b :: 0 <= b < |dead| ==> dead[b] == []
    ensures Balanced(buckets, dead, Books(multiset{}, multiset{}, multiset{}))
  {
    NoBucketRefs(buckets);
    NoDeadRefs(dead);
  }

  lemma {:induction false} NoBucketRefs(buckets: seq<seq<Node>>)
    requires forall b :: 0 <= b < |buckets| ==> buckets[b] == []
    ensures BucketRefs(buckets) == multiset{}
  {
    if buckets != [] { NoBucketRefs(buckets[1..]); }
  }

  lemma {:induction false} NoDeadRefs(dead: seq<seq<Value>>)
    requires forall b :: 0 <= b < |dead| ==> dead[b] == []
    ensures DeadRefs(dead) == multiset{}
  {
    if dead != [] { NoDeadRefs(dead[1..]); }
  }

  function Reversed(nodes: seq<Node>): seq<Node> {
    if nodes == [] then [] else Reversed(nodes[1..]) + [nodes[0]]
  }

  lemma Regroup(x: multiset<Value>, y: multiset<Value>, z: multiset<Value>)
    ensures x + y + z == x + (z + y)
  {
  }

  lemma {:induction false} NodeRefsAppend(x: seq<Node>, y: seq<Node>)
    ensures NodeRefs(x + y) == NodeRefs(x) + NodeRefs(y)
  {
    hide Hold;
    if x == [] {
      assert x + y == y;
    } else {
      NodeRefsAppend(x[1..], y);
      assert (x + y)[1..] == x[1..] + y;
    }
  }

  lemma {:induction false} ReversedRefs(nodes: seq<Node>, rest: seq<Node>)
    ensures NodeRefs(Reversed(nodes) + rest) == NodeRefs(nodes) + NodeRefs(rest)
  {
    hide Hold;
    if nodes == [] {
      assert Reversed(nodes) + rest == rest;
    } else {
      var r := [nodes[0]] + rest;
      ReversedRefs(nodes[1..], r);
      assert Reversed(nodes) + rest == Reversed(nodes[1..]) + r;
      assert r[1..] == rest;
    }
  }

  lemma NothingHeld()
    ensures NodeRefs([]) == multiset{}
  {
  }

  lemma ModStep(i: nat)
    ensures (i + SHARDS) % SHARDS == i % SHARDS
    ensures forall b :: i < b < i + SHARDS ==> b % SHARDS != i % SHARDS
  {
  }

  /** Cons the heap values of the detached nodes onto the list. */
  method ConsValues(nodes: seq<Node>, tail: seq<Value>) returns (list: seq<Value>)
    ensures multiset(list) == NodeRefs(nodes) + multiset(tail)
  {
    hide NodeRefs;
    list := tail;
    NothingHeld();
    assert nodes[..0] == [];
    for i := 0 to |nodes|
      invariant multiset(list) == NodeRefs(nodes[..i]) + multiset(tail)
    {
      var v := nodes[i].entry.value;
      ConsRefs(nodes, i);
      if IsHeap(v) { list := [v] + list; }
    }
    assert nodes[..|nodes|] == nodes;
  }

  lemma ConsRefs(nodes: seq<Node>, i: nat)
    requires i < |nodes|
    ensures NodeRefs(nodes[..i + 1]) == NodeRefs(nodes[..i]) + Hold(nodes[i].entry.value)
  {
    assert nodes[..i + 1] == nodes[..i] + [nodes[i]];
    NodeRefsAppend(nodes[..i], [nodes[i]]);
    assert [nodes[i]][1..] == [];
  }

  lemma EmptyRefines(buckets: seq<seq<Node>>, hash: Key -> nat, view: View, b: nat)
    requires Refines(buckets, hash, view) && b < BUCKETS
    ensures Refines(buckets[b := []], hash, map k | k in view && hash(k) != b :: view[k])
  {
  }

  lemma TakeBalances(buckets: seq<seq<Node>>, dead: seq<seq<Value>>, books: Books, b: nat)
    requires Balanced(buckets, dead, books) && b < |buckets|
    ensures Balanced(buckets[b := []], dead, HandBack(books, NodeRefs(buckets[b])))
  {
    NothingHeld();
    hide NodeRefs, BucketRefs, DeadRefs;
    BucketRefsReplace(buckets, b, []);
    assert BucketRefs(buckets[b := []]) + NodeRefs(buckets[b]) == BucketRefs(buckets);
  }

  lemma Cancel2(now: multiset<Value>, tail: multiset<Value>, start: multiset<Value>, list: multiset<Value>,
                before: multiset<Value>)
    requires now + tail == before + list && before == start + tail
    ensures now == start + list
  {
    forall v
      ensures now[v] == (start + list)[v]
    {
      assert (now + tail)[v] == (before + list)[v];
    }
  }

  lemma EmptyMeans(buckets: seq<seq<Node>>, dead: seq<seq<Value>>, hash: Key -> nat, view: View)
    requires Refines(buckets, hash, view) && forall b :: 0 <= b < BUCKETS ==> buckets[b] == []
    requires forall s :: 0 <= s < |dead| ==> dead[s] == []
    ensures view == map[] && BucketRefs(buckets) == multiset{} && DeadRefs(dead) == multiset{}
  {
    forall k
      ensures k !in view
    {
      assert k in view ==> HasKey(buckets[hash(k)], k);
    }
    NoBucketRefs(buckets);
    NoDeadRefs(dead);
  }

  lemma HandedBack(buckets0: seq<seq<Node>>, dead0: seq<seq<Value>>, books0: Books,
                   buckets: seq<seq<Node>>, dead: seq<seq<Value>>, books: Books, list: multiset<Value>)
    requires Balanced(buckets0, dead0, books0) && Balanced(buckets, dead, books)
    requires books.taken == books0.taken && books.released == books0.released
    requires books.returned == books0.returned + list
    requires BucketRefs(buckets) == multiset{} && DeadRefs(dead) == multiset{}
    ensures list == BucketRefs(buckets0) + DeadRefs(dead0) && books.taken == books.released + books.returned
  {
    hide BucketRefs, DeadRefs;
    forall v
      ensures list[v] == (BucketRefs(buckets0) + DeadRefs(dead0))[v]
    {
      assert books0.taken[v] == (BucketRefs(buckets0) + DeadRefs(dead0) + books0.released + books0.returned)[v];
      assert books.taken[v] == (multiset{} + multiset{} + books.released + books.returned)[v];
    }
  }

  // ----- whole sequences of operations

  datatype Op =
    | OpSet(k: Key, v: Value)
    | OpSetTtl(k: Key, v: Value, ttl: int, now: int)
    | OpPutNew(k: Key, v: Value, ttl: int, now: int)
    | OpIncr(k: Key, delta: int, now: int)
    | OpPush(k: Key, v: Value, max: int, now: int, id: nat)
    | OpGet(k: Key, now: int)
    | OpDrop(k: Key)

  datatype Out = Unit | Won(won: bool) | Sum(n: int) | Found(value: Option<Value>)

  predicate Absent(view: View, k: Key, now: int) {
    k !in view || !Live(view[k], now)
  }

  /** The table as a plain map from key to value and expiry. */
  function Apply(view: View, op: Op): View {
    match op
    case OpSet(k, v) => view[k := Entry(v, 0)]
    case OpSetTtl(k, v, ttl, now) => view[k := Entry(v, now + ttl * 1000)]
    case OpPutNew(k, v, ttl, now) =>
      if Absent(view, k, now) then view[k := Entry(v, if ttl > 0 then now + ttl * 1000 else 0)] else view
    case OpIncr(k, delta, now) => view[k := Entry(Int(Counter(view, k, now) + delta), KeptExpiry(view, k, now))]
    case OpPush(k, v, max, now, id) =>
      view[k := Entry(ListOf(id, Keep(Elems(view, k, now) + [v], max)), KeptExpiry(view, k, now))]
    case OpGet(_, _) => view
    case OpDrop(k) => view - {k}
  }

  function Answer(view: View, op: Op): Out {
    match op
    case OpPutNew(k, v, ttl, now) => Won(Absent(view, k, now))
    case OpIncr(k, delta, now) => Sum(Counter(view, k, now) + delta)
    case OpGet(k, now) => Found(if Absent(view, k, now) then None else Some(view[k].value))
    case _ => Unit
  }

  function ApplyAll(view: View, ops: seq<Op>): View {
    if ops == [] then view else Apply(ApplyAll(view, ops[..|ops| - 1]), ops[|ops| - 1])
  }

  /** The reference an operation takes: the value it stores, if it stores one. */
  function TakenBy(view: View, op: Op): multiset<Value> {
    match op
    case OpSet(_, v) => Hold(v)
    case OpSetTtl(_, v, _, _) => Hold(v)
    case OpPutNew(k, v, _, now) => if Absent(view, k, now) then Hold(v) else multiset{}
    case OpPush(k, v, max, now, id) => Hold(ListOf(id, Keep(Elems(view, k, now) + [v], max)))
    case _ => multiset{}
  }

  /** The element references a push takes for the cells of its new list. */
  function ElemsTakenBy(view: View, op: Op): multiset<Value> {
    match op
    case OpPush(k, v, max, now, id) => HeapOnes(Keep(Elems(view, k, now) + [v], max))
    case _ => multiset{}
  }

  /** Every push finds something it can read as a list. */
  ghost predicate Allowed(view: View, ops: seq<Op>) {
    forall i :: 0 <= i < |ops| && ops[i].OpPush? ==> Pushable(ApplyAll(view, ops[..i]), ops[i].k, ops[i].now)
  }

  /** What one operation must leave: the plain map's state and answer, and the references taken. */
  ghost predicate Did(t: Table, op: Op, out: Out, was: View, books0: Books, elemRefs0: multiset<Value>)
    reads t
  {
    && t.view == Apply(was, op) && out == Answer(was, op)
    && t.books.returned == books0.returned && t.books.taken == books0.taken + TakenBy(was, op)
    && t.elemRefs == elemRefs0 + ElemsTakenBy(was, op)
  }

  method DoStore(t: Table, op: Op) returns (out: Out)
    requires t.Valid() && (op.OpSet? || op.OpSetTtl? || op.OpPutNew?)
    modifies t
    ensures t.Valid() && Did(t, op, out, old(t.view), old(t.books), old(t.elemRefs))
  {
    hide Refines, Balanced, SpinesOk, Hold, Freed;
    out := Unit;
    if op.OpSet? {
      t.Set(op.k, op.v);
    } else if op.OpSetTtl? {
      t.SetTtl(op.k, op.v, op.ttl, op.now);
    } else {
      var won := t.PutNew(op.k, op.v, op.ttl, op.now);
      out := Won(won);
    }
  }

  method DoUpdate(t: Table, op: Op) returns (out: Out)
    requires t.Valid() && (op.OpIncr? || op.OpPush?)
    requires op.OpPush? ==> Pushable(t.view, op.k, op.now)
    modifies t
    ensures t.Valid() && Did(t, op, out, old(t.view), old(t.books), old(t.elemRefs))
  {
    hide Refines, Balanced, SpinesOk, HeapOnes, Freed, Keep;
    if op.OpIncr? {
      var n := t.Incr(op.k, op.delta, op.now);
      out := Sum(n);
    } else {
      t.PushCapped(op.k, op.v, op.max, op.now, op.id);
      out := Unit;
    }
  }

  /** One operation on the table. */
  method Do(t: Table, op: Op) returns (out: Out)
    requires t.Valid() && (op.OpPush? ==> Pushable(t.view, op.k, op.now))
    modifies t
    ensures t.Valid() && Did(t, op, out, old(t.view), old(t.books), old(t.elemRefs))
  {
    hide Refines, Balanced, SpinesOk, Freed;
    if op.OpSet? || op.OpSetTtl? || op.OpPutNew? {
      out := DoStore(t, op);
    } else if op.OpIncr? || op.OpPush? {
      out := DoUpdate(t, op);
    } else if op.OpGet? {
      var r := t.Get(op.k, op.now);
      out := Found(r);
    } else {
      t.Drop(op.k);
      out := Unit;
    }
  }

  /** The references a sequence of operations takes. */
  function TakenByAll(view: View, ops: seq<Op>): multiset<Value> {
    if ops == [] then multiset{}
    else
      var rest := ops[..|ops| - 1];
      TakenByAll(view, rest) + TakenBy(ApplyAll(view, rest), ops[|ops| - 1])
  }

  function ElemsTakenByAll(view: View, ops: seq<Op>): multiset<Value> {
    if ops == [] then multiset{}
    else
      var rest := ops[..|ops| - 1];
      ElemsTakenByAll(view, rest) + ElemsTakenBy(ApplyAll(view, rest), ops[|ops| - 1])
  }

  lemma AllNone(view: View, ops: seq<Op>)
    ensures ApplyAll(view, ops[..0]) == view
    ensures TakenByAll(view, ops[..0]) == ElemsTakenByAll(view, ops[..0]) == multiset{}
  {
  }

  lemma AllSnoc(view: View, ops: seq<Op>, i: nat, taken: multiset<Value>, elems: multiset<Value>)
    requires i < |ops|
    ensures ApplyAll(view, ops[..i + 1]) == Apply(ApplyAll(view, ops[..i]), ops[i])
    ensures taken + TakenByAll(view, ops[..i + 1])
         == taken + TakenByAll(view, ops[..i]) + TakenBy(ApplyAll(view, ops[..i]), ops[i])
    ensures elems + ElemsTakenByAll(view, ops[..i + 1])
         == elems + ElemsTakenByAll(view, ops[..i]) + ElemsTakenBy(ApplyAll(view, ops[..i]), ops[i])
  {
    hide Apply, TakenBy, ElemsTakenBy;
    assert ops[..i + 1][..i] == ops[..i] && ops[..i + 1][i] == ops[i];
  }

  /** Any sequence of operations: the sharded buckets answer as the plain map does, the table takes
      one reference per value stored, plus those of the cells of pushed lists, and the books stay
      balanced. */
  method Run(t: Table, ops: seq<Op>) returns (outs: seq<Out>)
    requires t.Valid() && Allowed(t.view, ops)
    modifies t
    ensures t.Valid() && t.view == ApplyAll(old(t.view), ops) && |outs| == |ops|
    ensures forall i :: 0 <= i < |ops| ==> outs[i] == Answer(ApplyAll(old(t.view), ops[..i]), ops[i])
    ensures t.books.taken == old(t.books.taken) + TakenByAll(old(t.view), ops)
    ensures t.elemRefs == old(t.elemRefs) + ElemsTakenByAll(old(t.view), ops)
    ensures t.books.returned == old(t.books.returned)
  {
    hide Refines, Balanced, SpinesOk, Apply, Answer, TakenBy, ElemsTakenBy, Pushable;
    hide ApplyAll, TakenByAll, ElemsTakenByAll;
    outs := [];
    ghost var view, taken, elems := t.view, t.books.taken, t.elemRefs;
    AllNone(view, ops);
    for i := 0 to |ops|
      invariant t.Valid() && t.view == ApplyAll(old(t.view), ops[..i]) && |outs| == i
      invariant forall j :: 0 <= j < i ==> outs[j] == Answer(ApplyAll(old(t.view), ops[..j]), ops[j])
      invariant t.books.taken == old(t.books.taken) + TakenByAll(old(t.view), ops[..i])
      invariant t.elemRefs == old(t.elemRefs) + ElemsTakenByAll(old(t.view), ops[..i])
      invariant t.books.returned == old(t.books.returned)
    {
      AllSnoc(view, ops, i, taken, elems);
      var out := Do(t, ops[i]);
      outs := outs + [out];
    }
    assert ops[..|ops|] == ops;
  }

  /** Pushes at one key, with one limit. */
  ghost predicate Pushes(ops: seq<Op>, k: Key, max: int) {
    forall i :: 0 <= i < |ops| ==> ops[i].OpPush? && ops[i].k == k && ops[i].max == max
  }

  function Pushed(ops: seq<Op>): (r: seq<Value>)
    requires forall i :: 0 <= i < |ops| ==> ops[i].OpPush?
    ensures |r| == |ops| && forall i :: 0 <= i < |ops| ==> r[i] == ops[i].v
  {
    if ops == [] then [] else Pushed(ops[..|ops| - 1]) + [ops[|ops| - 1].v]
  }

  /** However many values are pushed onto a fresh key, the list holds exactly the last max of them,
      oldest first, and every push along the way finds a list. */
  lemma {:induction false} PushesKeepTheLast(view: View, ops: seq<Op>, k: Key, max: int)
    requires Pushes(ops, k, max) && k !in view
    ensures ListsLast(ApplyAll(view, ops), k, Pushed(ops), max)
    ensures Allowed(view, ops)
  {
    hide ListsLast, Pushable, Apply;
    if ops == [] {
      NothingPushed(view, k, max);
    } else {
      var n := |ops| - 1;
      PushesKeepTheLast(view, ops[..n], k, max);
      PushLists(ApplyAll(view, ops[..n]), ops[n], Pushed(ops[..n]));
      AllowedPrefix(view, ops);
    }
  }

  /** k is unbound when nothing was pushed, and otherwise holds the last max of what was. */
  ghost predicate ListsLast(view: View, k: Key, pushed: seq<Value>, max: int) {
    if pushed == [] then k !in view
    else k in view && view[k].expires == 0 && view[k].value.ListOf? && view[k].value.elems == Keep(pushed, max)
  }

  lemma NothingPushed(view: View, k: Key, max: int)
    requires k !in view
    ensures ListsLast(view, k, [], max)
  {
  }

  lemma PushLists(view: View, op: Op, pushed: seq<Value>)
    requires op.OpPush? && ListsLast(view, op.k, pushed, op.max)
    ensures Pushable(view, op.k, op.now) && ListsLast(Apply(view, op), op.k, pushed + [op.v], op.max)
  {
    KeepKept(pushed, op.v, op.max);
  }

  lemma AllowedPrefix(view: View, ops: seq<Op>)
    requires ops != [] && Allowed(view, ops[..|ops| - 1])
    requires var op := ops[|ops| - 1]; op.OpPush? ==> Pushable(ApplyAll(view, ops[..|ops| - 1]), op.k, op.now)
    ensures Allowed(view, ops)
  {
    hide ApplyAll, Pushable;
    var rest := ops[..|ops| - 1];
    assert forall i :: 0 <= i < |rest| ==> rest[i] == ops[i] && rest[..i] == ops[..i];
  }

  /** Trimming between pushes loses nothing a final trim would keep. */
  lemma KeepKept(s: seq<Value>, v: Value, max: int)
    ensures Keep(Keep(s, max) + [v], max) == Keep(s + [v], max)
  {
  }

  function Total(ops: seq<Op>): int
    requires forall i :: 0 <= i < |ops| ==> ops[i].OpIncr?
  {
    if ops == [] then 0 else Total(ops[..|ops| - 1]) + ops[|ops| - 1].delta
  }

  /** Increments of a fresh key add up, whatever the clock does between them. */
  lemma {:induction false} IncrementsAddUp(view: View, ops: seq<Op>, k: Key)
    requires k !in view && ops != [] && forall i :: 0 <= i < |ops| ==> ops[i].OpIncr? && ops[i].k == k
    ensures k in ApplyAll(view, ops) && ApplyAll(view, ops)[k] == Entry(Int(Total(ops)), 0)
  {
    var n := |ops| - 1;
    if n > 0 {
      IncrementsAddUp(view, ops[..n], k);
    } else {
      assert ops[..n] == [];
    }
  }

  /** Among any number of put_new calls on a fresh key without expiry, exactly the first wins and
      its value stays. */
  lemma {:induction false} OnlyTheFirstWins(view: View, ops: seq<Op>, k: Key, i: nat)
    requires k !in view && i < |ops|
    requires forall j :: 0 <= j < |ops| ==> ops[j].OpPutNew? && ops[j].k == k && ops[j].ttl <= 0
    ensures Answer(ApplyAll(view, ops[..i]), ops[i]) == Won(i == 0)
    ensures var after := ApplyAll(view, ops[..i + 1]); k in after && after[k] == Entry(ops[0].v, 0)
  {
    assert ops[..i + 1][..i] == ops[..i];
    if i > 0 { OnlyTheFirstWins(view, ops, k, i - 1); }
  }
}
