/** Vote aggregates: the counters of one poll, how they are added up and how two snapshots are merged. */
module Aggregates {
  /** Go's uint8. */
  type uint8 = x: int | 0 <= x < 256

  /** Counters by option index, and the number of ballots they come from. */
  datatype Aggregate = Aggregate(votes: map<uint8, int>, ballots: int)

  const EMPTY := Aggregate(map[], 0)

  function Max(x: int, y: int): int {
    if x < y then y else x
  }

  /** Indexing a Go map: an absent option reads as zero. */
  function Get(a: Aggregate, i: uint8): int {
    if i in a.votes then a.votes[i] else 0
  }

  /** One counter raised by n; creates the counter when it is absent. */
  function Add(a: Aggregate, i: uint8, n: int): Aggregate {
    a.(votes := a.votes[i := Get(a, i) + n])
  }

  /** Two aggregates over disjoint groups of voters, added up. */
  function Sum(a: Aggregate, b: Aggregate): Aggregate {
    Aggregate(map i | i in a.votes.Keys + b.votes.Keys :: Get(a, i) + Get(b, i), a.ballots + b.ballots)
  }

  /** What MergeMax leaves at option i: the receiver's own value unless the other side has the option too. */
  function MergedAt(a: Aggregate, b: Aggregate, i: uint8): int {
    if i in b.votes then Max(Get(a, i), b.votes[i]) else Get(a, i)
  }

  /** The outcome of MergeMax as a value. */
  function Join(a: Aggregate, b: Aggregate): Aggregate {
    Aggregate(map i | i in a.votes.Keys + b.votes.Keys :: MergedAt(a, b, i), Max(a.ballots, b.ballots))
  }

  /** Copies the receiver's counters, then folds the other map in, in whatever order Go iterates it. */
  method MergeMax(a: Aggregate, prev: Aggregate) returns (out: Aggregate)
    ensures out == Join(a, prev)
  {
    var votes := a.votes;
    var rest := prev.votes.Keys;
    while rest != {}
      invariant rest <= prev.votes.Keys
      invariant votes.Keys == a.votes.Keys + (prev.votes.Keys - rest)
      invariant forall i :: i in votes ==>
        votes[i] == if i in rest then Get(a, i) else MergedAt(a, prev, i)
      decreases rest
    {
      var i :| i in rest;
      votes := votes[i := Max(if i in votes then votes[i] else 0, prev.votes[i])];
      rest := rest - {i};
    }
    out := Aggregate(votes, Max(a.ballots, prev.ballots));
  }

  ghost predicate NonNegative(a: Aggregate) {
    a.ballots >= 0 && forall i :: i in a.votes ==> a.votes[i] >= 0
  }

  /** Pointwise order: b has every counter of a, and none of them is smaller. */
  ghost predicate Le(a: Aggregate, b: Aggregate) {
    && a.ballots <= b.ballots
    && forall i :: i in a.votes ==> i in b.votes && a.votes[i] <= b.votes[i]
  }

  lemma LeAntisymmetric(a: Aggregate, b: Aggregate)
    requires Le(a, b) && Le(b, a)
    ensures a == b
  {
    assert a.votes.Keys == b.votes.Keys;
  }

  /** The option counters that only one side has are where the zero default shows. */
  ghost predicate LoneCountersNonNegative(a: Aggregate, b: Aggregate) {
    && (forall i :: i in a.votes && i !in b.votes ==> a.votes[i] >= 0)
    && (forall i :: i in b.votes && i !in a.votes ==> b.votes[i] >= 0)
  }

  /** MergeMax commutes exactly when no counter held by one side alone is negative. */
  lemma JoinCommutesExactly(a: Aggregate, b: Aggregate)
    ensures Join(a, b) == Join(b, a) <==> LoneCountersNonNegative(a, b)
  {
    var l, r := Join(a, b), Join(b, a);
    if LoneCountersNonNegative(a, b) {
      assert l.votes == r.votes;
    } else if i :| i in a.votes && i !in b.votes && a.votes[i] < 0 {
      assert l.votes[i] != r.votes[i];
    } else {
      var i :| i in b.votes && i !in a.votes && b.votes[i] < 0;
      assert l.votes[i] != r.votes[i];
    }
  }

  lemma JoinAssociative(a: Aggregate, b: Aggregate, c: Aggregate)
    requires NonNegative(a) && NonNegative(b) && NonNegative(c)
    ensures Join(Join(a, b), c) == Join(a, Join(b, c))
  {
    var l, r := Join(Join(a, b), c), Join(a, Join(b, c));
    assert l.votes.Keys == r.votes.Keys;
    forall i | i in l.votes ensures l.votes[i] == r.votes[i] {
      assert l.votes[i] == MergedAt(Join(a, b), c, i);
      assert r.votes[i] == MergedAt(a, Join(b, c), i);
    }
  }

  lemma JoinIdempotent(a: Aggregate)
    ensures Join(a, a) == a
  {
    assert Join(a, a).votes == a.votes;
  }

  /** The merge is the least aggregate above both: a join in the lattice sense. */
  lemma JoinIsLeastUpperBound(a: Aggregate, b: Aggregate)
    requires NonNegative(a) && NonNegative(b)
    ensures NonNegative(Join(a, b))
    ensures Le(a, Join(a, b)) && Le(b, Join(a, b))
    ensures forall c :: Le(a, c) && Le(b, c) ==> Le(Join(a, b), c)
  {
    forall c | Le(a, c) && Le(b, c) ensures Le(Join(a, b), c) {
      var j := Join(a, b);
      forall i | i in j.votes ensures i in c.votes && j.votes[i] <= c.votes[i] {
        assert i in a.votes || i in b.votes;
      }
    }
  }

  lemma JoinAbsorbs(a: Aggregate, b: Aggregate)
    requires NonNegative(a) && NonNegative(b) && Le(b, a)
    ensures Join(a, b) == a && Join(b, a) == a
  {
    assert Join(a, b).votes == a.votes;
    assert Join(b, a).votes == a.votes;
  }

  lemma SumMonotone(a: Aggregate, b: Aggregate, c: Aggregate, d: Aggregate)
    requires NonNegative(a) && NonNegative(b) && NonNegative(c) && NonNegative(d)
    requires Le(a, c) && Le(b, d)
    ensures Le(Sum(a, b), Sum(c, d)) && NonNegative(Sum(a, b))
  {
  }

  // ---- Ballots against votes ----

  /** All option counters below n, added up. */
  function TotalBelow(a: Aggregate, n: nat): int
    requires n <= 256
  {
    if n == 0 then 0 else TotalBelow(a, n - 1) + Get(a, n - 1)
  }

  function Total(a: Aggregate): int {
    TotalBelow(a, 256)
  }

  /** No option has more votes than there are ballots, and every ballot is behind at least one vote. */
  ghost predicate Balanced(a: Aggregate) {
    && NonNegative(a)
    && (forall i :: i in a.votes ==> a.votes[i] <= a.ballots)
    && a.ballots <= Total(a)
  }

  lemma {:induction false} TotalOfSum(a: Aggregate, b: Aggregate, n: nat)
    requires n <= 256
    ensures TotalBelow(Sum(a, b), n) == TotalBelow(a, n) + TotalBelow(b, n)
  {
    if n > 0 {
      TotalOfSum(a, b, n - 1);
      assert Get(Sum(a, b), n - 1) == Get(a, n - 1) + Get(b, n - 1);
    }
  }

  lemma {:induction false} TotalOfJoin(a: Aggregate, b: Aggregate, n: nat)
    requires n <= 256 && NonNegative(a) && NonNegative(b)
    ensures TotalBelow(Join(a, b), n) >= TotalBelow(a, n)
    ensures TotalBelow(Join(a, b), n) >= TotalBelow(b, n)
  {
    if n > 0 {
      TotalOfJoin(a, b, n - 1);
    }
  }

  lemma {:induction false} TotalOfEmpty(n: nat)
    requires n <= 256
    ensures TotalBelow(EMPTY, n) == 0
  {
    if n > 0 {
      TotalOfEmpty(n - 1);
    }
  }

  lemma EmptyIsBalanced()
    ensures Balanced(EMPTY)
  {
    TotalOfEmpty(256);
  }

  /** Adding the views of two disjoint groups keeps the ballot bound. */
  lemma SumBalanced(a: Aggregate, b: Aggregate)
    requires Balanced(a) && Balanced(b)
    ensures Balanced(Sum(a, b))
  {
    TotalOfSum(a, b, 256);
  }

  /** Merging two snapshots keeps the ballot bound. */
  lemma JoinBalanced(a: Aggregate, b: Aggregate)
    requires Balanced(a) && Balanced(b)
    ensures Balanced(Join(a, b))
  {
    TotalOfJoin(a, b, 256);
  }

  function Percent(a: Aggregate, i: uint8): real {
    if a.ballots <= 0 then 0.0 else Get(a, i) as real / a.ballots as real * 100.0
  }

  lemma RatioAtMostOne(x: int, y: int)
    requires 0 <= x <= y && y > 0
    ensures 0.0 <= x as real / y as real <= 1.0
  {
    var q := x as real / y as real;
    assert q * y as real == x as real;
    assert (1.0 - q) * y as real >= 0.0;
  }

  /** A balanced aggregate never shows a share outside 0..100. */
  lemma PercentInRange(a: Aggregate, i: uint8)
    requires Balanced(a)
    ensures 0.0 <= Percent(a, i) <= 100.0
  {
    if a.ballots > 0 {
      RatioAtMostOne(Get(a, i), a.ballots);
    }
  }

  /** The share is the votes per hundred ballots, and nothing while there are no ballots. */
  lemma PercentExactly(a: Aggregate, i: uint8)
    ensures a.ballots > 0 ==> Percent(a, i) * a.ballots as real == (100 * Get(a, i)) as real
    ensures a.ballots <= 0 ==> Percent(a, i) == 0.0
  {
    if a.ballots > 0 {
      assert Get(a, i) as real / a.ballots as real * a.ballots as real == Get(a, i) as real;
    }
  }
}
