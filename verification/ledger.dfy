/** The reference tally: who has been counted and with which options. The first vote applied wins. */
module Ledgers {
  import opened Aggregates

  /** The first 16 bytes of an HMAC over the client identifier. */
  type VoterId = s: seq<uint8> | |s| == 16 witness seq(16, _ => 0)

  /** One vote as the store sees it: duplicates among the options have been rejected before. */
  datatype Vote = Vote(voter: VoterId, options: set<uint8>)

  type Ledger = map<VoterId, set<uint8>>

  function ApplyVote(l: Ledger, v: Vote): Ledger {
    if v.voter in l then l else l[v.voter := v.options]
  }

  /** The ledger after these votes, in order. */
  function ApplyAll(l: Ledger, votes: seq<Vote>): Ledger {
    if votes == [] then l else ApplyVote(ApplyAll(l, votes[..|votes| - 1]), votes[|votes| - 1])
  }

  lemma ApplyOneMore(l: Ledger, votes: seq<Vote>, v: Vote)
    ensures ApplyAll(l, votes + [v]) == ApplyVote(ApplyAll(l, votes), v)
  {
    assert (votes + [v])[..|votes|] == votes;
  }

  lemma {:induction false} ApplyInTurn(l: Ledger, first: seq<Vote>, second: seq<Vote>)
    ensures ApplyAll(ApplyAll(l, first), second) == ApplyAll(l, first + second)
    decreases |second|
  {
    if second == [] {
      assert first + second == first;
    } else {
      var init := second[..|second| - 1];
      ApplyInTurn(l, first, init);
      assert (first + second)[..|first + second| - 1] == first + init;
    }
  }

  ghost predicate Votes(votes: seq<Vote>, v: VoterId) {
    exists u :: u in votes && u.voter == v
  }

  /** A voter is counted after the votes if it was before, or if one of them is the voter's. */
  lemma {:induction false} CountedAfterAll(l: Ledger, votes: seq<Vote>, v: VoterId)
    ensures v in ApplyAll(l, votes) <==> v in l || Votes(votes, v)
    decreases |votes|
  {
    if votes != [] {
      var init, last := votes[..|votes| - 1], votes[|votes| - 1];
      CountedAfterAll(l, init, v);
      assert votes == init + [last];
      assert forall u :: u in votes <==> u in init || u == last;
    }
  }

  /** Voters whose counted vote contains option i. */
  function Choosers(l: Ledger, i: uint8): set<VoterId> {
    set v | v in l && i in l[v]
  }

  /** The true tally of a ledger: an option appears once somebody chose it. */
  function ViewOf(l: Ledger): Aggregate {
    Aggregate(map i: uint8 | 0 <= i < 256 && Choosers(l, i) != {} :: |Choosers(l, i)|, |l|)
  }

  /** Every entry of the smaller ledger is in the larger one, unchanged. */
  ghost predicate Extends(small: Ledger, large: Ledger) {
    forall v :: v in small ==> v in large && large[v] == small[v]
  }

  /** The part of a ledger whose voters live in the given shards. */
  function InShards(l: Ledger, shardOf: VoterId -> nat, shards: set<nat>): Ledger {
    map v | v in l && shardOf(v) in shards :: l[v]
  }

  function NumbersBelow(n: nat): (ks: set<nat>)
    ensures forall k: nat :: k in ks <==> k < n
  {
    if n == 0 then {} else NumbersBelow(n - 1) + {n - 1}
  }

  ghost predicate NonEmptyVotes(l: Ledger) {
    forall v :: v in l ==> l[v] != {}
  }

  lemma SubsetCardinality<T>(a: set<T>, b: set<T>)
    requires a <= b
    ensures |a| <= |b|
  {
    assert b == a + (b - a);
  }

  lemma KeysSize(l: Ledger)
    ensures |l| == |l.Keys|
  {
  }

  lemma ViewAt(l: Ledger, i: uint8)
    ensures Get(ViewOf(l), i) == |Choosers(l, i)|
    ensures i in ViewOf(l).votes <==> exists v :: v in l && i in l[v]
  {
    if v :| v in l && i in l[v] {
      assert v in Choosers(l, i);
    }
    if Choosers(l, i) != {} {
      var v :| v in Choosers(l, i);
      assert v in l && i in l[v];
    }
  }

  lemma ChoosersOfApplied(l: Ledger, v: Vote, i: uint8)
    requires v.voter !in l
    ensures |Choosers(ApplyVote(l, v), i)| == |Choosers(l, i)| + (if i in v.options then 1 else 0)
  {
    var m := ApplyVote(l, v);
    if i in v.options {
      assert Choosers(m, i) == Choosers(l, i) + {v.voter};
    } else {
      assert Choosers(m, i) == Choosers(l, i);
    }
  }

  /** Counting one more voter raises exactly that voter's options and the ballots, by one each. */
  lemma ViewOfApplied(l: Ledger, v: Vote)
    requires v.voter !in l
    ensures ViewOf(ApplyVote(l, v)).ballots == ViewOf(l).ballots + 1
    ensures forall i: uint8 :: Get(ViewOf(ApplyVote(l, v)), i) == Get(ViewOf(l), i) + (if i in v.options then 1 else 0)
  {
    assert ApplyVote(l, v).Keys == l.Keys + {v.voter};
    forall i: uint8
      ensures Get(ViewOf(ApplyVote(l, v)), i) == Get(ViewOf(l), i) + (if i in v.options then 1 else 0)
    {
      ViewAt(l, i);
      ViewAt(ApplyVote(l, v), i);
      ChoosersOfApplied(l, v, i);
    }
  }

  lemma ViewMonotone(small: Ledger, large: Ledger)
    requires Extends(small, large)
    ensures Le(ViewOf(small), ViewOf(large)) && NonNegative(ViewOf(small))
  {
    assert small.Keys <= large.Keys;
    SubsetCardinality(small.Keys, large.Keys);
    forall i | i in ViewOf(small).votes
      ensures i in ViewOf(large).votes && ViewOf(small).votes[i] <= ViewOf(large).votes[i]
    {
      assert Choosers(small, i) <= Choosers(large, i);
      SubsetCardinality(Choosers(small, i), Choosers(large, i));
    }
  }

  lemma ViewOfEmpty()
    ensures ViewOf(map[]) == EMPTY
  {
    assert forall i: uint8 :: Choosers(map[], i) == {};
    assert ViewOf(map[]).votes == map[];
  }

  lemma ChoosersOfDisjoint(a: Ledger, b: Ledger, i: uint8)
    requires a.Keys !! b.Keys
    ensures |Choosers(a + b, i)| == |Choosers(a, i)| + |Choosers(b, i)|
  {
    assert Choosers(a + b, i) == Choosers(a, i) + Choosers(b, i);
    assert Choosers(a, i) !! Choosers(b, i);
  }

  /** Two views agree when their counters do: an option is listed exactly when its count is not zero. */
  lemma ViewsEqual(l: Ledger, a: Aggregate)
    requires ViewOf(l).ballots == a.ballots
    requires forall i: uint8 :: |Choosers(l, i)| == Get(a, i)
    requires forall i :: i in a.votes ==> a.votes[i] != 0
    ensures ViewOf(l) == a
  {
    forall i: uint8
      ensures i in ViewOf(l).votes <==> i in a.votes
    {
      assert Get(a, i) == |Choosers(l, i)|;
    }
    assert ViewOf(l).votes == a.votes;
  }

  lemma SumAt(a: Aggregate, b: Aggregate, i: uint8)
    ensures Get(Sum(a, b), i) == Get(a, i) + Get(b, i)
    ensures i in Sum(a, b).votes <==> i in a.votes || i in b.votes
  {
  }

  lemma DisjointAt(a: Ledger, b: Ledger, i: uint8)
    requires a.Keys !! b.Keys
    ensures |Choosers(a + b, i)| == Get(Sum(ViewOf(a), ViewOf(b)), i)
    ensures i in Sum(ViewOf(a), ViewOf(b)).votes ==> Get(Sum(ViewOf(a), ViewOf(b)), i) != 0
  {
    var va, vb := ViewOf(a), ViewOf(b);
    assert Get(va, i) == |Choosers(a, i)| && (i in va.votes ==> Get(va, i) != 0) by { ViewAt(a, i); }
    assert Get(vb, i) == |Choosers(b, i)| && (i in vb.votes ==> Get(vb, i) != 0) by { ViewAt(b, i); }
    SumAt(va, vb, i);
    ChoosersOfDisjoint(a, b, i);
  }

  /** Disjoint groups of voters are tallied separately and added up. */
  lemma ViewOfDisjoint(a: Ledger, b: Ledger)
    requires a.Keys !! b.Keys
    ensures ViewOf(a + b) == Sum(ViewOf(a), ViewOf(b))
  {
    var ab, r := a + b, Sum(ViewOf(a), ViewOf(b));
    forall i: uint8 ensures |Choosers(ab, i)| == Get(r, i) { DisjointAt(a, b, i); }
    forall i | i in r.votes ensures r.votes[i] != 0 { DisjointAt(a, b, i); }
    assert ab.Keys == a.Keys + b.Keys;
    ViewsEqual(ab, r);
  }

  /** Reading one more shard adds that shard's own counters. */
  lemma ViewOfOneMoreShard(l: Ledger, shardOf: VoterId -> nat, shards: set<nat>, k: nat)
    requires k !in shards
    ensures ViewOf(InShards(l, shardOf, shards + {k})) ==
            Sum(ViewOf(InShards(l, shardOf, shards)), ViewOf(InShards(l, shardOf, {k})))
  {
    var a, b := InShards(l, shardOf, shards), InShards(l, shardOf, {k});
    assert InShards(l, shardOf, shards + {k}) == a + b;
    ViewOfDisjoint(a, b);
  }

  lemma AllShards(l: Ledger, shardOf: VoterId -> nat, shards: set<nat>)
    requires forall v :: v in l ==> shardOf(v) in shards
    ensures InShards(l, shardOf, shards) == l
  {
  }

  lemma InShardsExtends(small: Ledger, large: Ledger, shardOf: VoterId -> nat, shards: set<nat>)
    requires Extends(small, large)
    ensures Extends(InShards(small, shardOf, shards), InShards(large, shardOf, shards))
  {
  }

  /** The tally of a ledger without empty votes obeys the ballot bound. */
  lemma {:induction false} ViewBalanced(l: Ledger)
    requires NonEmptyVotes(l)
    ensures Balanced(ViewOf(l))
    decreases |l|
  {
    if l == map[] {
      ViewOfEmpty();
      TotalOfEmpty(256);
    } else {
      var v :| v in l;
      ApplyLast(l, v);
      ViewBalanced(l - {v});
      OneMoreBallotBalanced(l - {v}, Vote(v, l[v]));
    }
  }

  lemma ApplyLast(l: Ledger, v: VoterId)
    requires v in l
    ensures ApplyVote(l - {v}, Vote(v, l[v])) == l && |l - {v}| < |l|
  {
    KeysSize(l);
    KeysSize(l - {v});
    assert l.Keys == (l - {v}).Keys + {v};
  }

  lemma OneMoreBallotBalanced(l: Ledger, v: Vote)
    requires v.voter !in l && v.options != {}
    requires Balanced(ViewOf(l))
    ensures Balanced(ViewOf(ApplyVote(l, v)))
  {
    var a, b := ViewOf(l), ViewOf(ApplyVote(l, v));
    ViewOfApplied(l, v);
    BallotAdded(a, b, v.options);
  }

  lemma BallotAdded(a: Aggregate, b: Aggregate, options: set<uint8>)
    requires Balanced(a) && options != {}
    requires b.ballots == a.ballots + 1
    requires forall i: uint8 :: Get(b, i) == Get(a, i) + (if i in options then 1 else 0)
    ensures Balanced(b)
  {
    var i :| i in options;
    TotalGrows(a, b, i, 256);
    forall j | j in b.votes ensures 0 <= b.votes[j] <= b.ballots {
      assert b.votes[j] == Get(b, j);
    }
  }

  lemma {:induction false} TotalGrows(a: Aggregate, b: Aggregate, i: uint8, n: nat)
    requires n <= 256
    requires forall j: uint8 :: Get(a, j) <= Get(b, j)
    requires Get(a, i) < Get(b, i)
    ensures TotalBelow(b, n) >= TotalBelow(a, n) + (if i < n then 1 else 0)
  {
    if n > 0 {
      TotalGrows(a, b, i, n - 1);
      assert Get(a, n - 1) <= Get(b, n - 1);
    }
  }
}
