/** The retire list of runtime/march_reclaim.c: an array with a consumed prefix, used under a mutex.
    The machine in Reclaim.dfy treats it as the sequence of its entries; this class shows that
    compaction, growth and batched consumption implement that sequence. */
module RetireList {
  import opened Reclaim

  const FIRST_CAPACITY := 256
  const POLL_EVERY := 32

  /** Stamps grow along the list, so the entries below any bound are a prefix, and the batch cut
      takes all of it that fits. */
  lemma {:induction false} FreeableIsPrefix(q: seq<Entry>, m: Bound, room: nat, i: nat)
    requires Increasing(q) && i < |q| && i < room
    ensures m.Exceeds(q[i].stamp) <==> i < Freeable(q, m, room)
  {
  }

  /** Freeable is the only count that a scan from the front can stop at. */
  lemma FreeableCount(q: seq<Entry>, m: Bound, room: nat, n: nat)
    requires n <= |q| && n <= room
    requires forall i :: 0 <= i < n ==> m.Exceeds(q[i].stamp)
    requires n < |q| && n < room ==> !m.Exceeds(q[n].stamp)
    ensures n == Freeable(q, m, room)
  {
  }

  lemma Regroup(freed: seq<Entry>, q: seq<Entry>, n: nat)
    requires n <= |q|
    ensures freed + q == (freed + q[..n]) + q[n..]
  {
  }

  /** The smallest announced epoch; Inf when every slot is offline. */
  method MinOnlineEpoch(slots: seq<Slot>) returns (m: Bound)
    ensures m.Inf? <==> forall k :: 0 <= k < |slots| ==> slots[k].epoch == 0
    ensures m.Fin? ==> (exists k :: 0 <= k < |slots| && slots[k].epoch == m.n) && m.n != 0
    ensures forall k :: 0 <= k < |slots| && slots[k].epoch != 0 ==> !m.Exceeds(slots[k].epoch)
  {
    m := Inf;
    var i := |slots|;
    while i > 0
      invariant 0 <= i <= |slots|
      invariant m.Inf? <==> forall k :: i <= k < |slots| ==> slots[k].epoch == 0
      invariant m.Fin? ==> (exists k :: i <= k < |slots| && slots[k].epoch == m.n) && m.n != 0
      invariant forall k :: i <= k < |slots| && slots[k].epoch != 0 ==> !m.Exceeds(slots[k].epoch)
    {
      i := i - 1;
      var e := slots[i].epoch;
      if e != 0 && m.Exceeds(e) {
        m := Fin(e);
      }
    }
  }

  class List {
    var entries: array<Entry>
    var head: nat
    var len: nat
    var sincePoll: nat
    /** Every entry ever appended, and every entry handed to its free function, in order. */
    ghost var retired: seq<Entry>
    ghost var freed: seq<Entry>

    ghost predicate Valid()
      reads this, entries
    {
      && head <= len <= entries.Length
      && Increasing(retired)
      && retired == freed + Contents()
    }

    ghost function Contents(): seq<Entry>
      reads this, entries
      requires head <= len <= entries.Length
    {
      entries[head..len]
    }

    constructor ()
      ensures Valid() && Contents() == [] && retired == freed == []
      ensures fresh(entries)
    {
      entries := new Entry[0];
      head, len, sincePoll := 0, 0, 0;
      retired, freed := [], [];
    }

    /** Drop the consumed prefix, then double the array if that made no room. */
    method MakeRoom()
      requires Valid() && len == entries.Length
      modifies this, entries
      ensures Valid() && len < entries.Length
      ensures Contents() == old(Contents())
      ensures retired == old(retired) && freed == old(freed) && sincePoll == old(sincePoll)
      ensures entries == old(entries) || fresh(entries)
    {
      ghost var was := Contents();
      if head > 0 {
        var n := len - head;
        forall i | 0 <= i < n {
          entries[i] := entries[head + i];
        }
        assert entries[..n] == was;
        len := n;
        head := 0;
      }
      if len == entries.Length {
        var cap := if entries.Length != 0 then entries.Length * 2 else FIRST_CAPACITY;
        var dummy := Entry(0, 0);
        var full, n := entries, len;
        entries := new Entry[cap](i requires 0 <= i < cap reads full =>
                                    if i < full.Length then full[i] else dummy);
        assert entries[..n] == full[..n] == was;
      }
    }

    /** Retire p under the stamp its fetch_add replaced; `poll` says that a poll is due. */
    method Retire(p: Ptr, stamp: nat) returns (poll: bool)
      requires Valid()
      requires forall i :: 0 <= i < |retired| ==> retired[i].stamp < stamp
      modifies this, entries
      ensures Valid()
      ensures Contents() == old(Contents()) + [Entry(p, stamp)]
      ensures retired == old(retired) + [Entry(p, stamp)] && freed == old(freed)
      ensures poll <==> old(sincePoll) + 1 >= POLL_EVERY
      ensures entries == old(entries) || fresh(entries)
    {
      if len == entries.Length {
        MakeRoom();
      }
      ghost var was := Contents();
      entries[len] := Entry(p, stamp);
      len := len + 1;
      retired := retired + [Entry(p, stamp)];
      assert Contents() == was + [Entry(p, stamp)];
      assert retired == freed + Contents();
      sincePoll := sincePoll + 1;
      poll := sincePoll >= POLL_EVERY;
    }

    /** The copy loop of one poll round: at most BATCH entries below the scanned bound. */
    method CopyFreeable(m: Bound) returns (batch: seq<Entry>)
      requires Valid()
      ensures batch == Contents()[..Freeable(Contents(), m, BATCH)]
    {
      ghost var q := Contents();
      batch := [];
      var h := head;
      while |batch| < BATCH && h < len && m.Exceeds(entries[h].stamp)
        invariant head <= h <= len && |batch| == h - head <= BATCH
        invariant batch == q[..|batch|]
        invariant forall i :: 0 <= i < |batch| ==> m.Exceeds(batch[i].stamp)
      {
        batch := batch + [entries[h]];
        h := h + 1;
      }
      FreeableCount(q, m, BATCH, |batch|);
    }

    /** The locked part of one poll round; an emptied array starts over at index 0. */
    method Take(m: Bound) returns (batch: seq<Entry>)
      requires Valid()
      modifies this
      ensures Valid() && entries == old(entries)
      ensures batch == old(Contents())[..Freeable(old(Contents()), m, BATCH)]
      ensures Contents() == old(Contents())[|batch|..]
      ensures retired == old(retired) && freed == old(freed) + batch
    {
      ghost var q := Contents();
      batch := CopyFreeable(m);
      Regroup(freed, q, |batch|);
      sincePoll, head := 0, head + |batch|;
      if head == len {
        head, len := 0, 0;
      }
      assert Contents() == q[|batch|..];
      freed := freed + batch;
      assert retired == freed + Contents();
    }

    /** A poll: rounds of scan, take and free until a round takes less than a full batch.
        slots(k) are the epochs the k-th round's scan read, slot by slot. */
    method Poll(slots: nat -> seq<Slot>) returns (rounds: nat)
      requires Valid()
      modifies this
      ensures Valid() && entries == old(entries) && retired == old(retired)
      ensures rounds > 0
      ensures old(freed) <= freed
      // what is freed was below every epoch that some round found announced
      ensures forall i :: |old(freed)| <= i < |freed| ==>
                exists k: nat :: k < rounds && BelowAll(slots(k), freed[i].stamp)
      // what remains starts with an entry that some slot of the last round held back
      ensures Contents() != [] ==> !BelowAll(slots(rounds - 1), Contents()[0].stamp)
      // with every slot offline the list drains
      ensures (forall k: nat :: AllOffline(slots(k))) ==> Contents() == []
    {
      hide BelowAll, AllOffline;
      rounds := 0;
      ghost var before := |freed|;
      while true
        invariant Valid() && entries == old(entries) && retired == old(retired)
        invariant old(freed) <= freed
        invariant forall i :: before <= i < |freed| ==>
                    exists k: nat :: k < rounds && BelowAll(slots(k), freed[i].stamp)
        decreases |Contents()|
      {
        ghost var done := freed;
        var n := Round(slots(rounds));
        rounds := rounds + 1;
        forall i | before <= i < |freed|
          ensures exists j: nat :: j < rounds && BelowAll(slots(j), freed[i].stamp)
        {
          if i < |done| {
            assert freed[i] == done[i];
          } else {
            assert BelowAll(slots(rounds - 1), freed[i].stamp);
          }
        }
        if n < BATCH {
          return;
        }
      }
    }

    /** One round: scan the slots, take the freeable prefix and free it. */
    method Round(slots: seq<Slot>) returns (n: nat)
      requires Valid()
      modifies this
      ensures Valid() && entries == old(entries) && retired == old(retired) && old(freed) <= freed
      ensures |freed| == |old(freed)| + n && |Contents()| == |old(Contents())| - n
      ensures forall i :: |old(freed)| <= i < |freed| ==> BelowAll(slots, freed[i].stamp)
      ensures n < BATCH && Contents() != [] ==> !BelowAll(slots, Contents()[0].stamp)
      ensures n < BATCH && AllOffline(slots) ==> Contents() == []
    {
      hide BelowAll, AllOffline;
      ghost var q := Contents();
      var m := MinOnlineEpoch(slots);
      BoundMeans(slots, m);
      var batch := Take(m);
      n := |batch|;
      forall i | |old(freed)| <= i < |freed|
        ensures BelowAll(slots, freed[i].stamp)
      {
        assert freed[i] == q[i - |old(freed)|];
      }
    }
  }

  /** Every slot that is online announces an epoch above the stamp. */
  ghost predicate BelowAll(slots: seq<Slot>, stamp: nat) {
    forall j :: 0 <= j < |slots| && slots[j].epoch != 0 ==> stamp < slots[j].epoch
  }

  ghost predicate AllOffline(slots: seq<Slot>) {
    forall j :: 0 <= j < |slots| ==> slots[j].epoch == 0
  }

  /** The minimum exceeds a stamp exactly when every online slot does. */
  lemma BoundMeans(slots: seq<Slot>, m: Bound)
    requires m.Inf? <==> forall k :: 0 <= k < |slots| ==> slots[k].epoch == 0
    requires m.Fin? ==> (exists k :: 0 <= k < |slots| && slots[k].epoch == m.n) && m.n != 0
    requires forall k :: 0 <= k < |slots| && slots[k].epoch != 0 ==> !m.Exceeds(slots[k].epoch)
    ensures forall stamp: nat :: m.Exceeds(stamp) <==> BelowAll(slots, stamp)
    ensures AllOffline(slots) ==> m.Inf?
  {
    forall stamp: nat
      ensures m.Exceeds(stamp) <==> BelowAll(slots, stamp)
    {
      if m.Fin? {
        var k :| 0 <= k < |slots| && slots[k].epoch == m.n;
        assert BelowAll(slots, stamp) ==> stamp < slots[k].epoch;
      }
    }
  }

  /** Over the life of the list every retired entry is freed once, in retire order, or still
      listed: the freed entries are a prefix of the retired ones. */
  lemma FreedInRetireOrder(l: List)
    requires l.Valid()
    ensures l.freed == l.retired[..|l.freed|] && l.Contents() == l.retired[|l.freed|..]
    ensures forall i, j :: 0 <= i < |l.freed| && 0 <= j < |l.Contents()| ==> l.freed[i].stamp < l.Contents()[j].stamp
  {
  }
}
