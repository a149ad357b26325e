/** The forwarding tables of runtime/march_gc.c and runtime/march_message.c: open addressing with
    linear probing over a power-of-two capacity, doubled at half load.  Key 0 (NULL) marks an empty
    cell, nothing is ever deleted, and callers insert a key at most once. */
module FwdTable {
  import opened Wrappers

  type Key = nat

  /** Bitwise and, bit by bit. */
  function And(a: nat, b: nat): nat {
    if a == 0 || b == 0 then 0 else a % 2 * (b % 2) + 2 * And(a / 2, b / 2)
  }

  /** Where a probe for hash h looks at step i. */
  function Slot(h: nat, i: nat, cap: nat): (r: nat)
    requires cap > 0
    ensures r < cap
  {
    (h + i) % cap
  }

  predicate PowerOfTwo(n: nat) {
    n == 1 || (n > 1 && n % 2 == 0 && PowerOfTwo(n / 2))
  }

  lemma Doubled(n: nat)
    requires PowerOfTwo(n)
    ensures PowerOfTwo(2 * n)
  {
  }

  /** Masking with a power of two less one is the remainder by that power. */
  lemma {:induction false} MaskIsMod(x: nat, cap: nat)
    requires PowerOfTwo(cap)
    ensures And(x, cap - 1) == x % cap
    decreases cap
  {
    if cap > 1 {
      MaskIsMod(x / 2, cap / 2);
      assert (cap - 1) % 2 == 1 && (cap - 1) / 2 == cap / 2 - 1;
      if x > 0 && cap > 2 {
        assert And(x, cap - 1) == x % 2 + 2 * And(x / 2, cap / 2 - 1);
      }
      HalfMod(x, cap / 2);
    }
  }

  lemma HalfMod(x: nat, m: nat)
    requires m > 0
    ensures x % (2 * m) == x % 2 + 2 * (x / 2 % m)
  {
    var q, r := x / 2 / m, x / 2 % m;
    assert x / 2 == m * q + r;
    assert x == 2 * m * q + (x % 2 + 2 * r);
    DivModUnique(2 * m, x / (2 * m), q, x % (2 * m), x % 2 + 2 * r);
  }

  /** The masked index of the code, (h + i) & (cap - 1) with h already masked, is Slot. */
  lemma MaskedSlot(h: nat, i: nat, cap: nat)
    requires PowerOfTwo(cap)
    ensures And(And(h, cap - 1) + i, cap - 1) == Slot(h, i, cap)
  {
    hide And;
    MaskIsMod(h, cap);
    MaskIsMod(h % cap + i, cap);
    ModAdd(h, i, cap);
  }

  lemma ModAdd(h: nat, i: nat, cap: nat)
    requires cap > 0
    ensures (h % cap + i) % cap == (h + i) % cap
  {
    var a := h % cap + i;
    var q, p, r := h / cap, a / cap, a % cap;
    Distributes(cap, q, p);
    assert h + i == cap * (q + p) + r;
    ModOf(cap, q + p, r);
  }

  lemma Distributes(n: nat, q: nat, p: nat)
    ensures n * (q + p) == n * q + n * p
  {
  }

  lemma MulBounds(n: nat, d: int)
    ensures d >= 1 ==> n * d >= n
    ensures d <= -1 ==> n * d <= 0 - n
  {
  }

  lemma DivModUnique(n: nat, q: int, q': int, r: int, r': int)
    requires 0 <= r < n && 0 <= r' < n && n * q + r == n * q' + r'
    ensures q == q' && r == r'
  {
    MulBounds(n, q - q');
    assert n * (q - q') == n * q - n * q';
  }

  /** A probe sequence of cap steps visits every cell. */
  lemma SlotReaches(h: nat, z: nat, cap: nat) returns (i: nat)
    requires z < cap
    ensures i < cap && Slot(h, i, cap) == z
  {
    var r := h % cap;
    var q := h / cap;
    assert h == cap * q + r;
    i := if z >= r then z - r else z + cap - r;
    if z >= r {
      assert h + i == cap * q + z;
      ModOf(cap, q, z);
    } else {
      assert h + i == cap * (q + 1) + z;
      ModOf(cap, q + 1, z);
    }
  }

  lemma ModOf(cap: nat, q: nat, z: nat)
    requires z < cap
    ensures (cap * q + z) % cap == z
  {
    var a := cap * q + z;
    DivModUnique(cap, a / cap, q, a % cap, z);
  }

  /** Key k sits d probes from its home cell, with no empty cell before it. */
  ghost predicate Probed(from: seq<Key>, h: nat, k: Key, d: nat) {
    && d < |from| && from[Slot(h, d, |from|)] == k
    && forall j :: 0 <= j < d ==> from[Slot(h, j, |from|)] != 0
  }

  /** The cells hold exactly the map m, each key reachable by its probe sequence. */
  ghost predicate Holds(from: seq<Key>, to: seq<Key>, hash: Key -> nat, m: map<Key, Key>) {
    && Cells(from, to, m) && |from| > 0 && 0 !in m
    && (forall k <- m :: exists d: nat :: Probed(from, hash(k), k, d))
  }

  /** Every full cell holds one pair of m, and no key sits in two cells. */
  ghost predicate Cells(from: seq<Key>, to: seq<Key>, m: map<Key, Key>) {
    && |from| == |to|
    && (forall i :: 0 <= i < |from| && from[i] != 0 ==> from[i] in m && to[i] == m[from[i]])
    && (forall i, j :: 0 <= i < j < |from| && from[i] != 0 ==> from[i] != from[j])
  }

  // ----- an empty cell always exists

  lemma {:induction false} DistinctFit(s: seq<Key>, ks: set<Key>)
    requires (forall i :: 0 <= i < |s| ==> s[i] in ks) && (forall i, j :: 0 <= i < j < |s| ==> s[i] != s[j])
    ensures |s| <= |ks|
  {
    if s != [] {
      var last := s[|s| - 1];
      DistinctFit(s[..|s| - 1], ks - {last});
    }
  }

  lemma EmptyCellExists(from: seq<Key>, to: seq<Key>, hash: Key -> nat, m: map<Key, Key>) returns (z: nat)
    requires Holds(from, to, hash, m) && |m| < |from|
    ensures z < |from| && from[z] == 0
  {
    assert exists i :: 0 <= i < |from| && from[i] == 0 by {
      if forall i :: 0 <= i < |from| ==> from[i] != 0 {
        DistinctFit(from, m.Keys);
      }
    }
    z :| 0 <= z < |from| && from[z] == 0;
  }

  /** A probe for a new key ends in its first empty cell, and writing it there keeps the table. */
  lemma PlaceKeeps(from: seq<Key>, to: seq<Key>, hash: Key -> nat, m: map<Key, Key>, k: Key, v: Key, d: nat)
    requires Holds(from, to, hash, m) && k != 0 && k !in m && d < |from|
    requires forall j :: 0 <= j < d ==> from[Slot(hash(k), j, |from|)] != 0
    requires from[Slot(hash(k), d, |from|)] == 0
    ensures var z := Slot(hash(k), d, |from|); Holds(from[z := k], to[z := v], hash, m[k := v])
  {
    hide Slot;
    var z := Slot(hash(k), d, |from|);
    var from', to', m' := from[z := k], to[z := v], m[k := v];
    forall x | x in m'
      ensures exists e: nat :: Probed(from', hash(x), x, e)
    {
      if x == k {
        assert Probed(from', hash(k), k, d);
      } else {
        var e: nat :| Probed(from, hash(x), x, e);
        assert Probed(from', hash(x), x, e);
      }
    }
  }

  lemma EmptyHolds(from: seq<Key>, to: seq<Key>, hash: Key -> nat)
    requires |from| == |to| && |from| > 0 && forall i :: 0 <= i < |from| ==> from[i] == 0
    ensures Holds(from, to, hash, map[])
  {
  }

  /** m is what the first n cells contribute to the contents. */
  ghost predicate Rehashed(from: seq<Key>, contents: map<Key, Key>, m: map<Key, Key>, n: nat) {
    && n <= |from| && |m| <= n
    && (forall k <- m :: k in contents && m[k] == contents[k])
    && (forall j :: 0 <= j < n && from[j] != 0 ==> from[j] in m)
    && (forall j :: n <= j < |from| && from[j] != 0 ==> from[j] !in m)
  }

  lemma HoldsCells(from: seq<Key>, to: seq<Key>, hash: Key -> nat, m: map<Key, Key>)
    requires Holds(from, to, hash, m)
    ensures Cells(from, to, m)
  {
  }

  lemma FullCell(from: seq<Key>, to: seq<Key>, contents: map<Key, Key>, m: map<Key, Key>, n: nat)
    requires Cells(from, to, contents) && Rehashed(from, contents, m, n) && n < |from| && from[n] != 0
    ensures from[n] !in m && Rehashed(from, contents, m[from[n] := to[n]], n + 1)
  {
    var m' := m[from[n] := to[n]];
    assert |m'| == |m| + 1;
    forall j | n + 1 <= j < |from| && from[j] != 0
      ensures from[j] !in m'
    {
      assert from[n] != from[j];
    }
  }

  lemma EmptyCell(from: seq<Key>, contents: map<Key, Key>, m: map<Key, Key>, n: nat)
    requires Rehashed(from, contents, m, n) && n < |from| && from[n] == 0
    ensures Rehashed(from, contents, m, n + 1)
  {
  }

  lemma AllRehashed(from: seq<Key>, to: seq<Key>, hash: Key -> nat, contents: map<Key, Key>, m: map<Key, Key>)
    requires Holds(from, to, hash, contents) && Rehashed(from, contents, m, |from|)
    ensures m == contents
  {
  }

  class Table {
    const hash: Key -> nat
    var from: array<Key>
    var to: array<Key>
    var count: nat
    ghost var contents: map<Key, Key>

    ghost predicate Valid()
      reads this, from, to
    {
      && from != to && from.Length == to.Length > 1 && PowerOfTwo(from.Length)
      && Holds(from[..], to[..], hash, contents) && count == |contents| && count < from.Length
    }

    constructor (hash: Key -> nat, cap: nat)
      requires PowerOfTwo(cap) && cap > 1
      ensures Valid() && contents == map[] && this.hash == hash && fresh(from) && fresh(to)
    {
      this.hash := hash;
      from := new Key[cap](_ => 0);
      to := new Key[cap](_ => 0);
      count, contents := 0, map[];
    }

    /** The destination of k, if k was inserted. */
    method Lookup(k: Key) returns (r: Option<Key>)
      requires Valid() && k != 0
      ensures r == if k in contents then Some(contents[k]) else None
    {
      hide Slot, And, PowerOfTwo;
      if count == 0 {
        return None;
      }
      ghost var d: nat := 0;
      if k in contents {
        d :| Probed(from[..], hash(k), k, d);
      }
      var cap := from.Length;
      var h := And(hash(k), cap - 1);
      var i := 0;
      while i < cap
        invariant 0 <= i <= cap
        invariant k in contents ==> i <= d
        invariant forall j :: 0 <= j < i ==> from[Slot(hash(k), j, cap)] != k
      {
        MaskedSlot(hash(k), i, cap);
        var idx := And(h + i, cap - 1);
        if from[idx] == 0 {
          return None;
        }
        if from[idx] == k {
          return Some(to[idx]);
        }
        i := i + 1;
      }
      return None;
    }

    /** The probe loop shared by insertion and growth: the first empty cell from the key's home. */
    static method FirstEmpty(f: array<Key>, hash: nat, ghost z: nat) returns (idx: nat, ghost i: nat)
      requires PowerOfTwo(f.Length) && z < f.Length && f[z] == 0
      ensures i < f.Length && idx == Slot(hash, i, f.Length) && f[idx] == 0
      ensures forall j :: 0 <= j < i ==> f[Slot(hash, j, f.Length)] != 0
    {
      hide Slot, And, PowerOfTwo;
      var cap := f.Length;
      var h := And(hash, cap - 1);
      ghost var e := SlotReaches(hash, z, cap);
      var n := 0;
      MaskedSlot(hash, 0, cap);
      while f[And(h + n, cap - 1)] != 0
        invariant 0 <= n <= e && And(h + n, cap - 1) == Slot(hash, n, cap)
        invariant forall j :: 0 <= j < n ==> f[Slot(hash, j, cap)] != 0
        decreases e - n
      {
        n := n + 1;
        MaskedSlot(hash, n, cap);
      }
      idx, i := And(h + n, cap - 1), n;
    }

    /** Place a new key in its first empty cell. */
    static method Place(f: array<Key>, t: array<Key>, hash: Key -> nat, k: Key, v: Key, ghost m: map<Key, Key>)
      requires f != t && PowerOfTwo(f.Length) && Holds(f[..], t[..], hash, m) && |m| < f.Length && k != 0 && k !in m
      modifies f, t
      ensures Holds(f[..], t[..], hash, m[k := v])
    {
      hide Slot, PowerOfTwo;
      ghost var z := EmptyCellExists(f[..], t[..], hash, m);
      ghost var ff, tt := f[..], t[..];
      ghost var i;
      var idx;
      idx, i := FirstEmpty(f, hash(k), z);
      PlaceKeeps(ff, tt, hash, m, k, v, i);
      f[idx], t[idx] := k, v;
      assert f[..] == ff[idx := k] && t[..] == tt[idx := v];
    }

    /** Place every entry into new arrays of twice the capacity. */
    static method Rehash(from: array<Key>, to: array<Key>, hash: Key -> nat, ghost contents: map<Key, Key>)
      returns (f: array<Key>, t: array<Key>)
      requires from.Length == to.Length > 0 && PowerOfTwo(from.Length) && Holds(from[..], to[..], hash, contents)
      ensures fresh(f) && fresh(t) && f != t && f.Length == t.Length == 2 * from.Length
      ensures Holds(f[..], t[..], hash, contents)
    {
      hide Holds, Cells, PowerOfTwo;
      assert PowerOfTwo(2 * from.Length) by { Doubled(from.Length); }
      var cap := 2 * from.Length;
      f := new Key[cap](_ => 0);
      t := new Key[cap](_ => 0);
      ghost var m: map<Key, Key> := map[];
      ghost var ff, tt := from[..], to[..];
      EmptyHolds(f[..], t[..], hash);
      assert Cells(ff, tt, contents) by { HoldsCells(ff, tt, hash, contents); }
      for i := 0 to from.Length
        invariant from[..] == ff && to[..] == tt
        invariant Holds(f[..], t[..], hash, m) && Rehashed(ff, contents, m, i)
        modifies f, t
      {
        if from[i] != 0 {
          FullCell(ff, tt, contents, m, i);
          Place(f, t, hash, from[i], to[i], m);
          m := m[from[i] := to[i]];
        } else {
          EmptyCell(ff, contents, m, i);
        }
      }
      AllRehashed(ff, tt, hash, contents, m);
    }

    method Grow()
      requires Valid()
      modifies this
      ensures Valid() && contents == old(contents) && count == old(count)
      ensures from.Length == 2 * old(from.Length) && fresh(from) && fresh(to)
    {
      hide Holds;
      from, to := Rehash(from, to, hash, contents);
    }

    /** Insert a key not yet present, growing first at half load. */
    method Insert(k: Key, v: Key)
      requires Valid() && k != 0 && k !in contents
      modifies this, from, to
      ensures Valid() && contents == old(contents)[k := v]
      ensures from == old(from) || fresh(from)
      ensures to == old(to) || fresh(to)
    {
      hide Holds;
      if count * 2 >= from.Length {
        Grow();
      }
      Place(from, to, hash, k, v, contents);
      contents := contents[k := v];
      count := count + 1;
    }
  }
}
