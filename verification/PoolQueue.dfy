/** The pending-call queue of the blocking pool as it is kept in memory (runtime/march_ffi.c): calls
    linked through their own next fields, with a head and a tail pointer.  The pool's state machine
    keeps it as a sequence; these methods show that the relinking implements that sequence. */
module PoolQueue {
  import Pool

  /** march_blk_call. */
  class Node {
    const call: Pool.Call
    var next: Node?

    constructor (call: Pool.Call)
      ensures this.call == call && next == null
    {
      this.call, next := call, null;
    }
  }

  /** Removing the element at i, its first occurrence. */
  lemma {:induction false} RemoveAt<T>(q: seq<T>, c: T, i: nat)
    requires i < |q| && q[i] == c && c !in q[..i]
    ensures Pool.Remove(q, c) == q[..i] + q[i + 1..]
  {
    if i > 0 {
      assert c !in q[1..][..i - 1] by { assert q[1..][..i - 1] == q[..i][1..]; }
      assert q[0] in q[..i];
      RemoveAt(q[1..], c, i - 1);
    }
  }

  function CallsOf(chain: seq<Node>): (r: seq<Pool.Call>)
    ensures |r| == |chain| && forall i :: 0 <= i < |chain| ==> r[i] == chain[i].call
  {
    if chain == [] then [] else [chain[0].call] + CallsOf(chain[1..])
  }

  /** Unlinking a node is removing its call, as the pool's step does, when no two nodes share one. */
  lemma {:induction false} RemovesItsCall(chain: seq<Node>, b: Node)
    requires b in chain && forall i, j :: 0 <= i < j < |chain| ==> chain[i].call != chain[j].call
    ensures CallsOf(Pool.Remove(chain, b)) == Pool.Remove(CallsOf(chain), b.call)
  {
    if chain[0] != b {
      assert b in chain[1..];
      var i :| 1 <= i < |chain| && chain[i] == b;
      assert chain[0].call != b.call;
      RemovesItsCall(chain[1..], b);
      var rest := Pool.Remove(chain[1..], b);
      assert ([chain[0]] + rest)[1..] == rest;
    }
  }

  class Queue {
    var head: Node?
    var tail: Node?
    ghost var chain: seq<Node>

    ghost predicate Valid()
      reads this, chain
    {
      && head == (if chain == [] then null else chain[0])
      && tail == (if chain == [] then null else chain[|chain| - 1])
      && (forall i, j :: 0 <= i < j < |chain| ==> chain[i] != chain[j])
      && (forall i {:trigger chain[i].next} :: 0 <= i < |chain| ==>
            chain[i].next == if i + 1 < |chain| then chain[i + 1] else null)
    }

    constructor ()
      ensures Valid() && chain == []
    {
      head, tail, chain := null, null, [];
    }

    /** The submission's append. */
    method Enqueue(b: Node)
      requires Valid() && b !in chain
      modifies this, b, tail
      ensures Valid() && chain == old(chain) + [b]
    {
      b.next := null;
      if tail != null { tail.next := b; } else { head := b; }
      tail := b;
      chain := chain + [b];
    }

    /** A worker's claim of the oldest call. */
    method Claim() returns (b: Node?)
      requires Valid()
      modifies this, head
      ensures Valid() && (b == null <==> old(chain) == [])
      ensures b != null ==> old(chain) == [b] + chain && b.next == null
      ensures b == null ==> chain == []
    {
      b := head;
      if b != null {
        head := b.next;
        if head == null { tail := null; }
        b.next := null;
        chain := chain[1..];
      }
    }

    /** The walk: how many nodes come before b, and the last of them; nothing is changed. */
    method Find(b: Node) returns (prev: Node?, cur: Node?, ghost i: nat)
      requires Valid()
      ensures i <= |chain| && b !in chain[..i] && cur == (if i < |chain| then chain[i] else null)
      ensures prev == if i == 0 then null else chain[i - 1]
      ensures cur == null || cur == b
    {
      prev, cur, i := null, head, 0;
      while cur != null && cur != b
        invariant i <= |chain| && b !in chain[..i] && cur == (if i < |chain| then chain[i] else null)
        invariant prev == if i == 0 then null else chain[i - 1]
        decreases |chain| - i
      {
        assert chain[..i + 1] == chain[..i] + [chain[i]];
        prev, cur, i := cur, cur.next, i + 1;
      }
    }

    /** march_blk_unlink_locked: takes b out if it is still queued, and says whether it was. */
    method Unlink(b: Node) returns (mine: bool)
      requires Valid()
      modifies this, chain
      ensures Valid() && (mine <==> b in old(chain)) && chain == Pool.Remove(old(chain), b)
      ensures mine ==> b.next == null
      ensures !mine ==> unchanged(this)
    {
      var prev, cur;
      ghost var i;
      prev, cur, i := Find(b);
      if cur == null {
        assert chain[..i] == chain;
        return false;
      }
      RemoveAt(chain, b, i);
      Relink(prev, b, i);
      return true;
    }

    /** The splice, with b at position i and prev before it. */
    method Relink(prev: Node?, b: Node, ghost i: nat)
      requires Valid() && i < |chain| && chain[i] == b && prev == if i == 0 then null else chain[i - 1]
      modifies this, prev, b
      ensures Valid() && chain == old(chain)[..i] + old(chain)[i + 1..] && b.next == null
    {
      if prev == null { head := b.next; } else { prev.next := b.next; }
      if tail == b { tail := prev; }
      b.next := null;
      chain := chain[..i] + chain[i + 1..];
      assert forall j :: 0 <= j < |chain| ==> chain[j] == old(chain)[if j < i then j else j + 1];
    }
  }
}
