/** The result tables: one row per poll and option, one row of ballots per poll, merged by GREATEST. */
module Results {
  import opened Aggregates
  import opened Keys

  datatype WriteOutcome = Written | NegativeCounter | PollNotFound

  /** sortedIndexes: the option indexes of a map in ascending order. */
  function SortedBelow(votes: map<uint8, int>, n: nat): seq<uint8>
    requires n <= 256
  {
    if n == 0 then []
    else SortedBelow(votes, n - 1) + (if (n - 1) in votes then [n - 1] else [])
  }

  ghost predicate Ascending(s: seq<uint8>) {
    forall i, j :: 0 <= i < j < |s| ==> s[i] < s[j]
  }

  lemma {:induction false} SortedBelowIsSorted(votes: map<uint8, int>, n: nat)
    requires n <= 256
    ensures Ascending(SortedBelow(votes, n))
    ensures forall i: uint8 :: i in SortedBelow(votes, n) <==> i in votes && i < n
  {
    if n > 0 {
      SortedBelowIsSorted(votes, n - 1);
      var init := SortedBelow(votes, n - 1);
      assert forall k :: 0 <= k < |init| ==> init[k] in init;
    }
  }

  /** voteArrays: the counters as two parallel arrays, refused when any of them is negative. */
  method VoteArrays(a: Aggregate) returns (ok: bool, idx: seq<uint8>, votes: seq<int>)
    ensures ok <==> NonNegative(a)
    ensures ok ==> Ascending(idx) && |votes| == |idx|
    ensures ok ==> forall i: uint8 :: i in idx <==> i in a.votes
    ensures ok ==> forall k :: 0 <= k < |idx| ==> idx[k] in a.votes && votes[k] == a.votes[idx[k]]
  {
    idx, votes := [], [];
    if a.ballots < 0 {
      return false, idx, votes;
    }
    var indexes := SortedBelow(a.votes, 256);
    SortedBelowIsSorted(a.votes, 256);
    for n := 0 to |indexes|
      invariant idx == indexes[..n] && |votes| == n
      invariant forall k :: 0 <= k < n ==> indexes[k] in a.votes && votes[k] == a.votes[indexes[k]] >= 0
    {
      var i := indexes[n];
      assert i in indexes;
      var v := a.votes[i];
      if v < 0 {
        return false, idx, votes;
      }
      idx := idx + [i];
      votes := votes + [v];
    }
    assert indexes[..|indexes|] == indexes;
    forall i | i in a.votes ensures a.votes[i] >= 0 {
      assert i in indexes;
    }
    ok := true;
  }

  class ResultStore {
    var polls: set<PollId>
    var rows: map<PollId, map<uint8, int>>
    var stats: map<PollId, int>

    constructor (polls: set<PollId>)
      ensures this.polls == polls && rows == map[] && stats == map[]
    {
      this.polls, rows, stats := polls, map[], map[];
    }

    /** What the tables hold for a poll; absent rows read as nothing. */
    ghost function Stored(poll: PollId): Aggregate
      reads this
    {
      Aggregate(if poll in rows then rows[poll] else map[], if poll in stats then stats[poll] else 0)
    }

    /** Get: one read-only transaction over both tables, adding row by row. */
    method Get(poll: PollId) returns (a: Aggregate)
      ensures a == Stored(poll)
    {
      a := Aggregate(map[], if poll in stats then stats[poll] else 0);
      var table := if poll in rows then rows[poll] else map[];
      var rest := table.Keys;
      while rest != {}
        invariant rest <= table.Keys && a.ballots == Stored(poll).ballots
        invariant a.votes == map i | i in table && i !in rest :: table[i]
        decreases rest
      {
        var i :| i in rest;
        a := Add(a, i, table[i]);
        rest := rest - {i};
      }
    }

    /** INSERT ... ON CONFLICT DO UPDATE SET votes = GREATEST(...), row by row in option order. */
    method UpsertRows(table: map<uint8, int>, idx: seq<uint8>, votes: seq<int>) returns (out: map<uint8, int>)
      requires |idx| == |votes| && Ascending(idx)
      ensures forall i :: i in out <==> i in table || i in idx
      ensures forall i :: i in table && i !in idx ==> out[i] == table[i]
      ensures forall k :: 0 <= k < |idx| ==>
                out[idx[k]] == if idx[k] in table then Max(table[idx[k]], votes[k]) else votes[k]
    {
      out := table;
      for n := 0 to |idx|
        invariant forall i :: i in out <==> i in table || i in idx[..n]
        invariant forall i :: i in table && i !in idx[..n] ==> out[i] == table[i]
        invariant forall k :: 0 <= k < n ==>
          out[idx[k]] == if idx[k] in table then Max(table[idx[k]], votes[k]) else votes[k]
      {
        var i := idx[n];
        assert forall k :: 0 <= k < n ==> idx[k] != i;
        assert idx[..n + 1] == idx[..n] + [i];
        out := out[i := if i in out then Max(out[i], votes[n]) else votes[n]];
      }
      assert idx[..|idx|] == idx;
    }

    /**
     * Upsert: both tables in one transaction. The stored aggregate becomes its join with the written one, other
     * polls are not touched, and a refused write changes nothing.
     */
    method Upsert(poll: PollId, a: Aggregate) returns (r: WriteOutcome)
      requires NonNegative(Stored(poll))
      modifies this
      ensures polls == old(polls)
      ensures r == if !NonNegative(a) then NegativeCounter else if poll in polls then Written else PollNotFound
      ensures r != Written ==> rows == old(rows) && stats == old(stats)
      ensures r == Written ==> Stored(poll) == Join(old(Stored(poll)), a) && NonNegative(Stored(poll))
      ensures forall q :: q != poll ==> Stored(q) == old(Stored(q))
    {
      var ok, idx, votes := VoteArrays(a);
      if !ok {
        return NegativeCounter;
      }
      if poll !in polls {
        return PollNotFound;
      }
      ghost var before := Stored(poll);
      var table := UpsertRows(if poll in rows then rows[poll] else map[], idx, votes);
      GreatestIsJoin(before, a, idx, votes, table);
      rows := rows[poll := table];
      stats := stats[poll := if poll in stats then Max(stats[poll], a.ballots) else a.ballots];
      JoinIsLeastUpperBound(before, a);
      r := Written;
    }
  }

  /** Row-wise GREATEST is the join of the stored counters with the written ones. */
  lemma GreatestIsJoin(before: Aggregate, a: Aggregate, idx: seq<uint8>, votes: seq<int>, table: map<uint8, int>)
    requires NonNegative(before) && NonNegative(a) && |votes| == |idx|
    requires forall i: uint8 :: i in idx <==> i in a.votes
    requires forall k :: 0 <= k < |idx| ==> idx[k] in a.votes && votes[k] == a.votes[idx[k]]
    requires forall i :: i in table <==> i in before.votes || i in idx
    requires forall i :: i in before.votes && i !in idx ==> table[i] == before.votes[i]
    requires forall k :: 0 <= k < |idx| ==>
               table[idx[k]] == if idx[k] in before.votes then Max(before.votes[idx[k]], votes[k]) else votes[k]
    ensures table == Join(before, a).votes
  {
    var joined := Join(before, a).votes;
    assert table.Keys == joined.Keys;
    forall i | i in table ensures table[i] == joined[i] {
      if i in idx {
        var k :| 0 <= k < |idx| && idx[k] == i;
      }
    }
  }

  // ---- One snapshot cycle against the tables ----

  ghost predicate AllNonNegative(writes: seq<Aggregate>) {
    forall k :: 0 <= k < |writes| ==> NonNegative(writes[k])
  }

  /** The stored aggregate after these writes, one after another. */
  ghost function Joined(start: Aggregate, writes: seq<Aggregate>): Aggregate {
    if writes == [] then start else Join(Joined(start, writes[..|writes| - 1]), writes[|writes| - 1])
  }

  /** r is above start and every one of the writes, and below everything else that is. */
  ghost predicate LeastAbove(r: Aggregate, start: Aggregate, writes: seq<Aggregate>) {
    && Le(start, r) && (forall a :: a in writes ==> Le(a, r))
    && (forall c :: Le(start, c) && (forall a :: a in writes ==> Le(a, c)) ==> Le(r, c))
  }

  lemma LeastOneMore(r: Aggregate, start: Aggregate, writes: seq<Aggregate>, a: Aggregate)
    requires LeastAbove(r, start, writes) && NonNegative(r) && NonNegative(a)
    ensures LeastAbove(Join(r, a), start, writes + [a]) && NonNegative(Join(r, a))
  {
    JoinIsLeastUpperBound(r, a);
    assert forall w :: w in writes ==> w in writes + [a];
    assert a in writes + [a];
  }

  lemma {:induction false} JoinedIsLeast(start: Aggregate, writes: seq<Aggregate>)
    requires NonNegative(start) && AllNonNegative(writes)
    ensures LeastAbove(Joined(start, writes), start, writes) && NonNegative(Joined(start, writes))
    decreases |writes|
  {
    if writes != [] {
      var init, last := writes[..|writes| - 1], writes[|writes| - 1];
      JoinedIsLeast(start, init);
      LeastOneMore(Joined(start, init), start, init, last);
      assert writes == init + [last];
    }
  }

  /** Writes of other snapshotters, one after another. */
  method WriteAll(store: ResultStore, poll: PollId, writes: seq<Aggregate>)
    requires poll in store.polls && NonNegative(store.Stored(poll)) && AllNonNegative(writes)
    modifies store
    ensures store.polls == old(store.polls) && NonNegative(store.Stored(poll))
    ensures store.Stored(poll) == Joined(old(store.Stored(poll)), writes)
  {
    for n := 0 to |writes|
      invariant store.polls == old(store.polls) && NonNegative(store.Stored(poll))
      invariant store.Stored(poll) == Joined(old(store.Stored(poll)), writes[..n])
    {
      assert writes[..n + 1][..n] == writes[..n];
      var r := store.Upsert(poll, writes[n]);
    }
    assert writes[..|writes|] == writes;
  }

  /** Merging the old result into the fresh read before it is written adds nothing that is not there already. */
  lemma MergedAddsOnlyFresh(start: Aggregate, others: seq<Aggregate>, latest: Aggregate)
    requires NonNegative(start) && NonNegative(latest) && AllNonNegative(others)
    ensures NonNegative(Join(latest, start))
    ensures LeastAbove(Join(Joined(start, others), Join(latest, start)), start, others + [latest])
  {
    var j, merged, writes := Joined(start, others), Join(latest, start), others + [latest];
    JoinedIsLeast(start, others);
    JoinIsLeastUpperBound(latest, start);
    JoinIsLeastUpperBound(j, merged);
    LeastOneMore(j, start, others, latest);
    forall c | Le(start, c) && forall a :: a in writes ==> Le(a, c) ensures Le(Join(j, merged), c) {
      assert latest in writes;
      assert Le(merged, c);
      assert Le(j, c) by { assert forall a :: a in others ==> a in writes; }
    }
    forall a | a in writes ensures Le(a, Join(j, merged)) {
      assert a in others || a == latest;
    }
  }

  /**
   * Get, MergeMax, Upsert as TickOnce issues them: whatever other snapshotters wrote in between, the stored aggregate
   * ends up as the least one above the old one, their writes and the fresh read.
   */
  method SnapshotCycle(store: ResultStore, poll: PollId, latest: Aggregate, others: seq<Aggregate>)
    returns (r: WriteOutcome)
    requires poll in store.polls && NonNegative(store.Stored(poll)) && NonNegative(latest) && AllNonNegative(others)
    modifies store
    ensures r == Written && NonNegative(store.Stored(poll))
    ensures LeastAbove(store.Stored(poll), old(store.Stored(poll)), others + [latest])
  {
    var prev := store.Get(poll);
    WriteAll(store, poll, others);
    var merged := MergeMax(latest, prev);
    MergedAddsOnlyFresh(prev, others, latest);
    r := store.Upsert(poll, merged);
  }
}
