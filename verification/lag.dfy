/** The consumer lag that gates finalization. */
module Lags {
  import opened Aggregates

  type PartitionLags = map<nat, int>

  /** The positive lags of one topic's partitions, added up; the order makes no difference. */
  ghost function PositiveSum(lags: PartitionLags, parts: set<nat>): int
    requires parts <= lags.Keys
    decreases |parts|
  {
    if parts == {} then 0
    else
      var p :| p in parts;
      Max(lags[p], 0) + PositiveSum(lags, parts - {p})
  }

  lemma {:induction false} PositiveSumAnyOrder(lags: PartitionLags, parts: set<nat>, p: nat)
    requires parts <= lags.Keys && p in parts
    ensures PositiveSum(lags, parts) == Max(lags[p], 0) + PositiveSum(lags, parts - {p})
    decreases |parts|
  {
    var q :| q in parts && PositiveSum(lags, parts) == Max(lags[q], 0) + PositiveSum(lags, parts - {q});
    if q != p {
      PositiveSumAnyOrder(lags, parts - {q}, p);
      PositiveSumAnyOrder(lags, parts - {p}, q);
      assert parts - {p} - {q} == parts - {q} - {p};
    }
  }

  lemma {:induction false} ZeroSum(lags: PartitionLags, parts: set<nat>)
    requires parts <= lags.Keys
    ensures PositiveSum(lags, parts) >= 0
    ensures PositiveSum(lags, parts) == 0 <==> forall p :: p in parts ==> lags[p] <= 0
    decreases |parts|
  {
    if parts != {} {
      var p :| p in parts;
      PositiveSumAnyOrder(lags, parts, p);
      ZeroSum(lags, parts - {p});
    }
  }

  /** What the answer says about a topic; a topic that is missing has no partitions in it. */
  function LagsOf(lags: map<string, PartitionLags>, topic: string): PartitionLags {
    if topic in lags then lags[topic] else map[]
  }

  /**
   * Lag: over the group's topics, only the votes topic counts, and of its partitions only those with a positive lag.
   * The answer is zero exactly when no partition reports one.
   */
  method TotalLag(lags: map<string, PartitionLags>, topic: string) returns (total: int)
    ensures var reported := LagsOf(lags, topic);
            && total == PositiveSum(reported, reported.Keys)
            && (total == 0 <==> forall p :: p in reported ==> reported[p] <= 0)
  {
    total := 0;
    var topics := lags.Keys;
    while topics != {}
      invariant topics <= lags.Keys
      invariant total == if topic in lags && topic !in topics then PositiveSum(lags[topic], lags[topic].Keys) else 0
      decreases topics
    {
      var name :| name in topics;
      topics := topics - {name};
      if name == topic {
        total := SumPartitions(lags[name]);
      }
    }
    ZeroSum(LagsOf(lags, topic), LagsOf(lags, topic).Keys);
  }

  method SumPartitions(parts: PartitionLags) returns (total: int)
    ensures total == PositiveSum(parts, parts.Keys)
  {
    total := 0;
    var rest := parts.Keys;
    while rest != {}
      invariant rest <= parts.Keys
      invariant total + PositiveSum(parts, rest) == PositiveSum(parts, parts.Keys)
      decreases rest
    {
      var id :| id in rest;
      PositiveSumAnyOrder(parts, rest, id);
      if parts[id] > 0 {
        total := total + parts[id];
      }
      rest := rest - {id};
    }
  }

  /** The lag that was reported for a partition is the true one, or negative because it could not be determined. */
  ghost predicate Reports(reported: PartitionLags, actual: map<nat, nat>) {
    forall p :: p in reported && p in actual ==> reported[p] == actual[p] || reported[p] < 0
  }

  ghost predicate Drained(actual: map<nat, nat>) {
    forall p :: p in actual ==> actual[p] == 0
  }

  /**
   * A total of zero proves the drain of the topic's partitions, whatever their true lags, if and only if the report
   * leaves none of them out and none unknown: the gate skips those instead of waiting for them.
   */
  lemma ZeroProvesDrainExactly(lags: map<string, PartitionLags>, topic: string, parts: set<nat>)
    requires var reported := LagsOf(lags, topic); PositiveSum(reported, reported.Keys) == 0
    ensures var reported := LagsOf(lags, topic);
            (forall actual: map<nat, nat> :: actual.Keys == parts && Reports(reported, actual) ==> Drained(actual)) <==>
            (forall p :: p in parts ==> p in reported && reported[p] >= 0)
  {
    var reported := LagsOf(lags, topic);
    ZeroSum(reported, reported.Keys);
    if p :| p in parts && !(p in reported && reported[p] >= 0) {
      var actual: map<nat, nat> := map q | q in parts :: if q in reported && reported[q] >= 0 then 0 else 1;
      assert actual.Keys == parts && Reports(reported, actual) && actual[p] == 1;
    } else {
      forall actual: map<nat, nat> | actual.Keys == parts && Reports(reported, actual) ensures Drained(actual) {
        assert forall p :: p in actual ==> reported[p] == actual[p];
      }
    }
  }
}
