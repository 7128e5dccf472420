/** The tally adapter: Apply and Aggregate against a Redis store, and how long its keys live. */
module TallyStore {
  import opened Aggregates
  import opened Ledgers
  import opened Texts
  import opened Keys
  import opened Domain
  import opened Redis
  import opened Tallies
  import opened Counters

  // ---- Key lifetimes ----

  /** Go's conversion of a non-negative float to an integer. */
  function Truncate(x: real): int {
    if x < 0.0 then -((-x).Floor) else x.Floor
  }

  /** The configured TTL in seconds, moved by at most the jitter ratio. */
  function Jittered(ttl: int, jitter: real, h: nat): real {
    var base := ttl as real / SECOND as real;
    var frac := (h % 2_000_001) as real / 1_000_000.0 - 1.0;
    if jitter > 0.0 then base * (1.0 + jitter * frac) else base
  }

  /** ttlSecondsFor: the jittered TTL in whole seconds, at least one. */
  function TtlSeconds(ttl: int, jitter: real, h: nat): (s: nat)
    ensures s >= 1
  {
    var whole := Truncate(Jittered(ttl, jitter, h));
    if whole < 1 then 1 else whole
  }

  // ---- The adapter ----

  datatype VoteResult = Counted | AlreadyCounted

  datatype ApplyResult = Done(result: VoteResult) | InvalidVote | StoreFailed

  /** A poll with some identifier and some shards, and some choices of which no two are the same. */
  ghost predicate WellFormedVote(t: Target, choices: seq<uint8>) {
    && (exists i :: 0 <= i < 16 && t.poll[i] != 0) && t.shardCount > 0
    && |choices| > 0 && forall i, j :: 0 <= i < j < |choices| ==> choices[i] != choices[j]
  }

  lemma TargetExactly(t: Target)
    ensures ValidTarget(t) <==> (exists i :: 0 <= i < 16 && t.poll[i] != 0) && t.shardCount > 0
  {
    NilExactly(t.poll);
  }

  /** validateVote: a usable target and a non-empty choice without repetitions. */
  method ValidateVote(t: Target, choices: seq<uint8>) returns (ok: bool)
    ensures ok <==> WellFormedVote(t, choices)
  {
    TargetExactly(t);
    if !ValidTarget(t) || |choices| == 0 {
      return false;
    }
    var seen := new bool[256](_ => false);
    for n := 0 to |choices|
      invariant forall i: uint8 :: seen[i] <==> i in choices[..n]
      invariant Distinct(choices[..n])
    {
      var idx := choices[n];
      assert choices[..n + 1] == choices[..n] + [idx];
      if seen[idx] {
        var k :| 0 <= k < n && choices[k] == idx;
        return false;
      }
      seen[idx] := true;
    }
    assert choices[..|choices|] == choices;
    return true;
  }

  /** A vote on its way to the script, well-formed or not. */
  datatype Ballot = Ballot(voter: VoterId, choices: seq<uint8>)

  function Pending(rounds: seq<seq<Ballot>>): nat {
    if rounds == [] then 0 else |rounds[0]| + Pending(rounds[1..])
  }

  class Tally {
    const hash: VoterId -> nat
    const ttl: int
    const jitter: real
    const store: Store
    /** Votes that others apply before each of the coming shard reads. */
    var rounds: seq<seq<Ballot>>
    /** Which of the coming shard reads fail. */
    var faults: seq<bool>
    /** How many have failed so far. */
    ghost var failures: nat

    constructor (
      hash: VoterId -> nat, ttl: int, jitter: real, store: Store, rounds: seq<seq<Ballot>>, faults: seq<bool>)
      requires ttl > 0 && 0.0 <= jitter <= 0.5
      ensures this.hash == hash && this.ttl == ttl && this.jitter == jitter && this.store == store
      ensures this.rounds == rounds && this.faults == faults && failures == 0
    {
      this.hash, this.ttl, this.jitter, this.store := hash, ttl, jitter, store;
      this.rounds, this.faults, this.failures := rounds, faults, 0;
    }

    /** The store holds this ledger of the poll. */
    ghost predicate Holds(t: Target, l: Ledger)
      reads this, store
    {
      Represents(store.db, store.now, hash, t, l)
    }

    /** Apply: a malformed vote changes nothing; a well-formed one has the effect of the simple tally. */
    method Apply(t: Target, v: VoterId, choices: seq<uint8>, ghost l: Ledger) returns (r: ApplyResult)
      requires Holds(t, l)
      modifies store
      ensures store.now == old(store.now)
      ensures r.InvalidVote? <==> !WellFormedVote(t, choices)
      ensures r.InvalidVote? ==> store.db == old(store.db)
      ensures !r.InvalidVote? ==>
                && r == Done(if v in l then AlreadyCounted else Counted)
                && Holds(t, ApplyVote(l, Vote(v, OptionsOf(choices))))
                && store.db == Applied(old(store.db), store.now, hash, t, v, choices, TtlSeconds(ttl, jitter, hash(v)))
    {
      var ok := ValidateVote(t, choices);
      if !ok {
        return InvalidVote;
      }
      var shard := ShardFor(hash, v, t.shardCount);
      var args := [Decimal(TtlSeconds(ttl, jitter, hash(v)))];
      for n := 0 to |choices|
        invariant args == [Decimal(TtlSeconds(ttl, jitter, hash(v)))] + Decimals(choices[..n])
      {
        assert choices[..n + 1][..n] == choices[..n];
        args := args + [Decimal(choices[n])];
      }
      assert choices[..|choices|] == choices;
      assert args[1..] == Decimals(choices);
      DecimalRoundTrip(TtlSeconds(ttl, jitter, hash(v)));
      ApplyRefinesLedger(store.db, store.now, hash, t, l, v, choices, TtlSeconds(ttl, jitter, hash(v)));
      var out := store.VoteScript(DedupKey(t.poll, shard, v), CounterKey(t.poll, shard), args);
      match out {
        case Failed => r := StoreFailed;
        case Replied(code) =>
          r := if code == 1 then Done(Counted) else if code == 2 then Done(AlreadyCounted) else StoreFailed;
      }
    }

    /** Others apply their votes. */
    method Interfere(t: Target, ghost l: Ledger) returns (ghost l': Ledger)
      requires Holds(t, l)
      modifies store, this`rounds
      ensures Holds(t, l') && Extends(l, l')
      ensures |l'| + Pending(rounds) <= |l| + Pending(old(rounds))
      ensures old(rounds) == [] ==> rounds == [] && l' == l
    {
      l' := l;
      if rounds != [] {
        var votes := rounds[0];
        rounds := rounds[1..];
        for n := 0 to |votes|
          invariant Holds(t, l') && Extends(l, l') && |l'| <= |l| + n && rounds == old(rounds)[1..]
        {
          var r := Apply(t, votes[n].voter, votes[n].choices, l');
          if !r.InvalidVote? {
            ghost var v := Vote(votes[n].voter, OptionsOf(votes[n].choices));
            AtMostOneMore(l', v);
            l' := ApplyVote(l', v);
          }
        }
      }
    }

    /** Whether the next shard read fails. */
    method Fails() returns (failed: bool)
      modifies this`faults, this`failures
      ensures failures == old(failures) + (if failed then 1 else 0)
    {
      failed := faults != [] && faults[0];
      failures := failures + (if failed then 1 else 0);
      if faults != [] {
        faults := faults[1..];
      }
    }

    /** One HGETALL of the pipeline, merged into what has been read so far. */
    method ReadShard(key: string, before: Aggregate, ghost part: Ledger) returns (ok: bool, out: Aggregate)
      requires ShardReadable(store.db, store.now, key, part)
      ensures ok && out == Sum(before, ViewOf(part))
    {
      var present, fields := store.HGetAll(key);
      ok, out := MergeCounters(before, fields);
      ShardReadsBack(store.db, store.now, key, part, fields, before, out, ok);
    }

    /** The next shard's reply, after others had their turn. */
    method ReadNext(t: Target, k: nat, out: Aggregate, ghost l: Ledger, ghost before: Ledger)
      returns (ok: bool, out': Aggregate, ghost now: Ledger)
      requires Holds(t, before) && |before| + Pending(rounds) <= 0x7fff_ffff_ffff_ffff && k < t.shardCount
      requires Extends(l, before) && Between(hash, t, l, before, k, out)
      modifies store, this
      ensures Holds(t, now) && Extends(before, now) && |now| + Pending(rounds) <= 0x7fff_ffff_ffff_ffff
      ensures old(rounds) == [] ==> rounds == [] && now == before
      ensures failures == old(failures) + (if ok then 0 else 1)
      ensures ok ==> Between(hash, t, l, now, k + 1, out')
    {
      out' := out;
      now := Interfere(t, before);
      var failed := Fails();
      ok := !failed;
      if ok {
        ShardsReadable(store.db, store.now, hash, t, now);
        ghost var part := ShardLedger(hash, t, now, k);
        assert ShardReadable(store.db, store.now, CounterKey(t.poll, k), part);
        var merged;
        merged, out' := ReadShard(CounterKey(t.poll, k), out, part);
        ReadOneMore(hash, t, l, before, now, k, out);
      }
    }

    /** The pipeline of shard reads, merged in order up to the first that fails. */
    method ReadShards(t: Target, ghost l: Ledger) returns (ok: bool, out: Aggregate, ghost l': Ledger)
      requires Holds(t, l) && |l| + Pending(rounds) <= 0x7fff_ffff_ffff_ffff
      modifies store, this
      ensures Holds(t, l') && Extends(l, l') && (old(rounds) == [] ==> l' == l)
      ensures failures == old(failures) + (if ok then 0 else 1)
      ensures ok ==> Between(hash, t, l, l', t.shardCount, out)
    {
      ok, out, l' := true, EMPTY, l;
      NothingRead(hash, t, l);
      for k := 0 to t.shardCount
        invariant Holds(t, l') && Extends(l, l') && |l'| + Pending(rounds) <= 0x7fff_ffff_ffff_ffff
        invariant old(rounds) == [] ==> rounds == [] && l' == l
        invariant Between(hash, t, l, l', k, out)
        invariant ok && failures == old(failures)
      {
        ok, out, l' := ReadNext(t, k, out, l, l');
        if !ok {
          return;
        }
      }
    }

    /**
     * Aggregate: over all shards, what is read lies between the unsharded first-vote-wins tally at the start and the
     * one at the end, and is that tally when nobody votes in between. A read that fails fails the whole. Counters are
     * 64-bit in Redis, so the poll must have fewer than 2^63 voters.
     */
    method Aggregate(t: Target, ghost l: Ledger) returns (ok: bool, out: Aggregate, ghost l': Ledger)
      requires Holds(t, l) && |l| + Pending(rounds) <= 0x7fff_ffff_ffff_ffff
      modifies store, this
      ensures Holds(t, l') && Extends(l, l')
      ensures ok <==> ValidTarget(t) && failures == old(failures)
      ensures ok ==> Le(ViewOf(l), out) && Le(out, ViewOf(l'))
      ensures ok && old(rounds) == [] ==> out == ViewOf(l)
    {
      ok, out, l' := ValidTarget(t), EMPTY, l;
      if ok {
        ok, out, l' := ReadShards(t, l);
        if ok {
          BetweenTallies(hash, t, l, l', out);
        }
      }
    }
  }

  /** The first k shards have been read while the ledger grew from l to now. */
  ghost predicate Between(hash: VoterId -> nat, t: Target, l: Ledger, now: Ledger, k: nat, out: Aggregate) {
    NonNegative(out) && Le(FirstShards(hash, t, l, k), out) && Le(out, FirstShards(hash, t, now, k))
  }

  lemma BetweenTallies(hash: VoterId -> nat, t: Target, l: Ledger, now: Ledger, out: Aggregate)
    requires t.shardCount > 0 && Between(hash, t, l, now, t.shardCount, out)
    ensures Le(ViewOf(l), out) && Le(out, ViewOf(now)) && (l == now ==> out == ViewOf(l))
  {
    EveryShard(hash, t, l);
    EveryShard(hash, t, now);
    if l == now {
      LeAntisymmetric(ViewOf(l), out);
    }
  }

  lemma FirstShardsGrow(hash: VoterId -> nat, t: Target, small: Ledger, large: Ledger, k: nat)
    requires Extends(small, large)
    ensures Le(FirstShards(hash, t, small, k), FirstShards(hash, t, large, k))
    ensures NonNegative(FirstShards(hash, t, small, k))
  {
    var f := (v: VoterId) => ShardFor(hash, v, t.shardCount);
    InShardsExtends(small, large, f, NumbersBelow(k));
    ViewMonotone(InShards(small, f, NumbersBelow(k)), InShards(large, f, NumbersBelow(k)));
  }

  lemma ShardGrows(hash: VoterId -> nat, t: Target, small: Ledger, large: Ledger, k: nat)
    requires Extends(small, large)
    ensures Le(ViewOf(ShardLedger(hash, t, small, k)), ViewOf(ShardLedger(hash, t, large, k)))
    ensures NonNegative(ViewOf(ShardLedger(hash, t, small, k)))
  {
    InShardsExtends(small, large, (v: VoterId) => ShardFor(hash, v, t.shardCount), {k});
    ViewMonotone(ShardLedger(hash, t, small, k), ShardLedger(hash, t, large, k));
  }

  lemma SumBetween(low: Aggregate, lowPart: Aggregate, out: Aggregate, part: Aggregate, mid: Aggregate, high: Aggregate)
    requires NonNegative(low) && NonNegative(lowPart) && NonNegative(out) && NonNegative(part)
    requires NonNegative(mid) && NonNegative(high)
    requires Le(low, out) && Le(out, mid) && Le(mid, high) && Le(lowPart, part)
    ensures Le(Sum(low, lowPart), Sum(out, part)) && Le(Sum(out, part), Sum(high, part)) && NonNegative(Sum(out, part))
  {
    SumMonotone(low, lowPart, out, part);
    SumMonotone(out, part, high, part);
  }

  lemma AtMostOneMore(l: Ledger, v: Vote)
    ensures |ApplyVote(l, v)| <= |l| + 1 && Extends(l, ApplyVote(l, v))
  {
    if v.voter !in l {
      assert ApplyVote(l, v).Keys == l.Keys + {v.voter};
      KeysSize(l);
      KeysSize(ApplyVote(l, v));
    }
  }

  /** One more shard, read from the ledger of that moment, keeps the sum between the two tallies. */
  lemma ReadOneMore(hash: VoterId -> nat, t: Target, l: Ledger, before: Ledger, now: Ledger, k: nat, out: Aggregate)
    requires Extends(l, before) && Extends(before, now) && Between(hash, t, l, before, k, out)
    ensures Between(hash, t, l, now, k + 1, Sum(out, ViewOf(ShardLedger(hash, t, now, k))))
  {
    OneMoreShard(hash, t, l, k);
    OneMoreShard(hash, t, now, k);
    FirstShardsGrow(hash, t, l, before, k);
    FirstShardsGrow(hash, t, before, now, k);
    FirstShardsGrow(hash, t, now, now, k);
    ShardGrows(hash, t, l, now, k);
    ShardGrows(hash, t, now, now, k);
    SumBetween(FirstShards(hash, t, l, k), ViewOf(ShardLedger(hash, t, l, k)), out,
               ViewOf(ShardLedger(hash, t, now, k)),
               FirstShards(hash, t, before, k), FirstShards(hash, t, now, k));
  }

  /** The tally of the voters in the first n shards. */
  ghost function FirstShards(hash: VoterId -> nat, t: Target, l: Ledger, n: nat): Aggregate {
    ViewOf(InShards(l, v => ShardFor(hash, v, t.shardCount), NumbersBelow(n)))
  }

  lemma NothingRead(hash: VoterId -> nat, t: Target, l: Ledger)
    ensures FirstShards(hash, t, l, 0) == EMPTY
  {
    assert InShards(l, v => ShardFor(hash, v, t.shardCount), {}) == map[];
    ViewOfEmpty();
  }

  lemma OneMoreShard(hash: VoterId -> nat, t: Target, l: Ledger, k: nat)
    ensures FirstShards(hash, t, l, k + 1) == Sum(FirstShards(hash, t, l, k), ViewOf(ShardLedger(hash, t, l, k)))
  {
    ViewOfOneMoreShard(l, v => ShardFor(hash, v, t.shardCount), NumbersBelow(k), k);
  }

  /** All shards together are all the voters: sharding loses and duplicates nobody. */
  lemma EveryShard(hash: VoterId -> nat, t: Target, l: Ledger)
    requires t.shardCount > 0
    ensures FirstShards(hash, t, l, t.shardCount) == ViewOf(l)
  {
    AllShards(l, v => ShardFor(hash, v, t.shardCount), NumbersBelow(t.shardCount));
  }

  /** A shard's hash is the tally of its voters, and its counters are within int64. */
  ghost predicate ShardReadable(db: Db, now: Time, key: string, part: Ledger) {
    && CounterOk(db, now, key, part) && FitsInt64(ViewOf(part))
    && forall f :: f in BaseFields(db, now, key) ==> BaseFields(db, now, key)[f] >= 0
  }

  ghost predicate AllReadable(db: Db, now: Time, hash: VoterId -> nat, t: Target, l: Ledger) {
    forall k: nat :: k < t.shardCount ==>
      ShardReadable(db, now, CounterKey(t.poll, k), ShardLedger(hash, t, l, k))
  }

  lemma ShardsReadable(db: Db, now: Time, hash: VoterId -> nat, t: Target, l: Ledger)
    requires CountersOk(db, now, hash, t, l) && |l| <= 0x7fff_ffff_ffff_ffff
    ensures AllReadable(db, now, hash, t, l)
  {
    forall k: nat | k < t.shardCount
      ensures ShardReadable(db, now, CounterKey(t.poll, k), ShardLedger(hash, t, l, k))
    {
      assert CounterOk(db, now, CounterKey(t.poll, k), ShardLedger(hash, t, l, k));
      ShardFits(l, v => ShardFor(hash, v, t.shardCount), k);
      FieldsNonNegative(db, now, CounterKey(t.poll, k), ShardLedger(hash, t, l, k));
    }
  }

  lemma ViewFits(l: Ledger)
    requires |l| <= 0x7fff_ffff_ffff_ffff
    ensures FitsInt64(ViewOf(l))
  {
    forall i: uint8 ensures 0 <= Get(ViewOf(l), i) <= |l| {
      ViewAt(l, i);
      assert Choosers(l, i) <= l.Keys;
      SubsetCardinality(Choosers(l, i), l.Keys);
      KeysSize(l);
    }
  }

  lemma ShardFits(l: Ledger, shardOf: VoterId -> nat, k: nat)
    requires |l| <= 0x7fff_ffff_ffff_ffff
    ensures FitsInt64(ViewOf(InShards(l, shardOf, {k})))
  {
    var part := InShards(l, shardOf, {k});
    assert part.Keys <= l.Keys;
    SubsetCardinality(part.Keys, l.Keys);
    KeysSize(l);
    KeysSize(part);
    ViewFits(part);
  }

  lemma FieldsNonNegative(db: Db, now: Time, key: string, part: Ledger)
    requires CounterOk(db, now, key, part) && FitsInt64(ViewOf(part))
    ensures forall f :: f in BaseFields(db, now, key) ==> BaseFields(db, now, key)[f] >= 0
  {
    forall f | f in BaseFields(db, now, key) ensures BaseFields(db, now, key)[f] >= 0 {
      if part != map[] {
        WrittenFieldReadable(ViewOf(part), f);
      }
    }
  }

  /** One shard's reply, merged, adds that shard's tally. */
  lemma ShardReadsBack(
    db: Db, now: Time, key: string, part: Ledger, fields: map<string, string>, before: Aggregate, res: Aggregate,
    ok: bool)
    requires ShardReadable(db, now, key, part)
    requires fields == TextOf(BaseFields(db, now, key))
    requires ok <==> Readable(fields)
    requires ok ==> Merged(fields, before, res)
    ensures ok && res == Sum(before, ViewOf(part))
  {
    if part == map[] {
      ViewOfEmpty();
      assert fields == map[];
      AbsentReadsBack(before, res);
    } else {
      WrittenReadable(ViewOf(part), fields);
      WrittenReadsBack(ViewOf(part), fields, before, res);
    }
  }
}
