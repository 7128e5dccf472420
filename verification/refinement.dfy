/** The pipeline's ledger and shard reads are what the Redis keys and counter hashes really hold. */
module Refinement {
  import opened Aggregates
  import opened Ledgers
  import opened Keys
  import opened Domain
  import opened Redis
  import opened Tallies
  import opened Expiry
  import opened Protocol
  import opened Theorems

  /** The votes a run's script calls carried, in order. */
  ghost function ScriptVotes(trace: seq<Action>): seq<Vote> {
    if trace == [] then []
    else
      var a := trace[|trace| - 1];
      ScriptVotes(trace[..|trace| - 1]) + (if a.Script? then [a.vote] else [])
  }

  /** The votes of one poll among the calls that reached Redis, in order. */
  ghost function VotesOf(poll: PollId, calls: seq<Call>): seq<Vote> {
    if calls == [] then []
    else
      var c := calls[|calls| - 1];
      VotesOf(poll, calls[..|calls| - 1]) +
      (if c.target.poll == poll then [Vote(c.voter, OptionsOf(c.choices))] else [])
  }

  lemma {:induction false} LedgerIsVotesApplied(cfg: Config, start: Time, trace: seq<Action>)
    requires Runs(cfg, Init(cfg, start), trace)
    ensures After(cfg, Init(cfg, start), trace).pipe.ledger == ApplyAll(map[], ScriptVotes(trace))
    decreases |trace|
  {
    if trace != [] {
      LastStep(cfg, Init(cfg, start), trace);
      var init, a := trace[..|trace| - 1], trace[|trace| - 1];
      LedgerIsVotesApplied(cfg, start, init);
      OnlyScriptsCount(cfg, After(cfg, Init(cfg, start), init), a);
      if a.Script? {
        ApplyOneMore(map[], ScriptVotes(init), a.vote);
      } else {
        assert ScriptVotes(init) + [] == ScriptVotes(init);
      }
    }
  }

  lemma {:induction false} CallsAreVotesApplied(poll: PollId, calls: seq<Call>)
    ensures LedgerAfter(poll, calls) == ApplyAll(map[], VotesOf(poll, calls))
    decreases |calls|
  {
    if calls != [] {
      var init, c := calls[..|calls| - 1], calls[|calls| - 1];
      CallsAreVotesApplied(poll, init);
      if c.target.poll == poll {
        ApplyOneMore(map[], VotesOf(poll, init), Vote(c.voter, OptionsOf(c.choices)));
      } else {
        assert VotesOf(poll, init) + [] == VotesOf(poll, init);
      }
    }
  }

  /**
   * In any run of the pipeline whose script calls reach Redis in the order of the run, among calls for any other
   * polls and within the shortest key lifetime, the store holds the run's ledger, and the counter hash of every
   * shard is the aggregate the protocol lets a snapshotter read there.
   */
  lemma RedisServesThePipeline(
    cfg: Config, start: Time, trace: seq<Action>, calls: seq<Call>, ttlOf: VoterId -> nat, first: Time, now: Time,
    lifetime: nat, k: nat)
    requires Runs(cfg, Init(cfg, start), trace) && k < cfg.shards
    requires ScriptVotes(trace) == VotesOf(cfg.poll, calls)
    requires forall v :: ttlOf(v) * SECOND >= lifetime
    requires forall c :: c in calls ==>
               WellFormed(c) && (c.target.poll == cfg.poll ==> c.target.shardCount == cfg.shards)
    requires first <= now <= first + lifetime && Between(calls, first, now)
    ensures var l := After(cfg, Init(cfg, start), trace).pipe.ledger;
            var db := DbAfter(cfg.hash, ttlOf, calls);
            && Represents(db, now, cfg.hash, Target(cfg.poll, cfg.shards), l)
            && (ShardView(cfg, l, k) != EMPTY ==>
                  BaseFields(db, now, CounterKey(cfg.poll, k)) == FieldsOf(ShardView(cfg, l, k)))
            && (ShardView(cfg, l, k) == EMPTY ==> Live(db, now, CounterKey(cfg.poll, k)).None?)
  {
    var t := Target(cfg.poll, cfg.shards);
    LedgerIsVotesApplied(cfg, start, trace);
    CallsAreVotesApplied(cfg.poll, calls);
    TimedStoreRefinesLedger(cfg.hash, ttlOf, t, calls, first, now, lifetime);
    var l := After(cfg, Init(cfg, start), trace).pipe.ledger;
    assert InShards(l, ShardOf(cfg), {k}) == ShardLedger(cfg.hash, t, l, k);
    ShardOfStore(DbAfter(cfg.hash, ttlOf, calls), now, cfg.hash, t, l, k);
  }

  lemma ShardOfStore(db: Db, now: Time, hash: VoterId -> nat, t: Target, l: Ledger, k: nat)
    requires CountersOk(db, now, hash, t, l) && k < t.shardCount
    ensures var view := ViewOf(ShardLedger(hash, t, l, k));
            && (view != EMPTY ==> BaseFields(db, now, CounterKey(t.poll, k)) == FieldsOf(view))
            && (view == EMPTY ==> Live(db, now, CounterKey(t.poll, k)).None?)
  {
    var part := ShardLedger(hash, t, l, k);
    assert CounterOk(db, now, CounterKey(t.poll, k), part);
    if part == map[] {
      ViewOfEmpty();
    } else {
      KeysSize(part);
      var v :| v in part;
      assert |part.Keys| > 0;
    }
  }
}
