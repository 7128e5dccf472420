/** Runs longer than the counter hashes live: exactly when a quiet spell makes a shard forget what it had counted. */
module Lapses {
  import opened Aggregates
  import opened Ledgers
  import opened Texts
  import opened Keys
  import opened Domain
  import opened Redis
  import opened Tallies
  import opened Expiry
  import opened Repeats

  /** A shard of a poll, the home of one counter hash. */
  datatype Home = Home(target: Target, shard: nat)

  ghost function CounterOf(h: Home): string {
    CounterKey(h.target.poll, h.shard)
  }

  ghost predicate LivesIn(hash: VoterId -> nat, c: Call, h: Home) {
    c.target == h.target && ShardFor(hash, c.voter, c.target.shardCount) == h.shard
  }

  /** The latest call that was counted in this shard. */
  ghost function LastCounted(hash: VoterId -> nat, ttlOf: VoterId -> nat, calls: seq<Call>, h: Home): Option<Call> {
    if calls == [] then None
    else
      var n := |calls| - 1;
      if LivesIn(hash, calls[n], h) && CountsAt(hash, ttlOf, calls, n) then Some(calls[n])
      else LastCounted(hash, ttlOf, calls[..n], h)
  }

  /** Every counted call of the shard came within the lifetime that the counted call before it had set. */
  ghost predicate NoLapse(hash: VoterId -> nat, ttlOf: VoterId -> nat, calls: seq<Call>, h: Home) {
    calls != [] ==>
      var n := |calls| - 1;
      var before := LastCounted(hash, ttlOf, calls[..n], h);
      && NoLapse(hash, ttlOf, calls[..n], h)
      && (LivesIn(hash, calls[n], h) && CountsAt(hash, ttlOf, calls, n) && before.Some? ==>
            Shields(ttlOf, before.value, calls[n].at))
  }

  /** ... and the last of them is not further back than that either. */
  ghost predicate NoLapseUpTo(hash: VoterId -> nat, ttlOf: VoterId -> nat, calls: seq<Call>, h: Home, now: Time) {
    && NoLapse(hash, ttlOf, calls, h)
    && var last := LastCounted(hash, ttlOf, calls, h);
       last.Some? ==> Shields(ttlOf, last.value, now)
  }

  /** Nobody's calls for any poll are so far apart that one is counted twice. */
  ghost predicate AllCloseTogether(ttlOf: VoterId -> nat, calls: seq<Call>) {
    forall i: nat, j: nat :: i < j < |calls| && SameVoter(calls[i], calls[j]) ==> Shields(ttlOf, calls[i], calls[j].at)
  }

  /** Well-formed calls in time order, one shard count per poll, and no voter counted twice. */
  ghost predicate Orderly(ttlOf: VoterId -> nat, calls: seq<Call>) {
    && InTimeOrder(calls) && OneTargetPerPoll(calls) && AllCloseTogether(ttlOf, calls)
    && forall i :: 0 <= i < |calls| ==> WellFormed(calls[i])
  }

  lemma OrderlyPrefix(ttlOf: VoterId -> nat, calls: seq<Call>)
    requires calls != [] && Orderly(ttlOf, calls)
    ensures Orderly(ttlOf, calls[..|calls| - 1])
  {
    var init := calls[..|calls| - 1];
    assert forall c :: c in init ==> c in calls;
  }

  // ---- Who is counted ----

  lemma {:induction false} InLedgerIfCalled(calls: seq<Call>, poll: PollId, v: VoterId)
    ensures v in LedgerAfter(poll, calls) <==>
            exists i: nat :: i < |calls| && calls[i].target.poll == poll && calls[i].voter == v
    decreases |calls|
  {
    if calls != [] {
      var init := calls[..|calls| - 1];
      InLedgerIfCalled(init, poll, v);
      if i: nat :| i < |init| && init[i].target.poll == poll && init[i].voter == v {
        assert calls[i].target.poll == poll && calls[i].voter == v;
      }
      if i: nat :| i < |calls| && calls[i].target.poll == poll && calls[i].voter == v {
        assert i < |init| ==> init[i].target.poll == poll && init[i].voter == v;
      }
    }
  }

  /** Among orderly calls exactly a voter's first one is counted. */
  lemma CountedExactlyIfFirst(hash: VoterId -> nat, ttlOf: VoterId -> nat, calls: seq<Call>, n: nat)
    requires n < |calls| && Orderly(ttlOf, calls)
    ensures CountsAt(hash, ttlOf, calls, n) <==> forall i: nat :: i < n ==> !SameVoter(calls[i], calls[n])
  {
    var counted := Counted(hash, ttlOf, calls);
    forall m: nat | m < |calls| ensures CountedByRule(ttlOf, calls, counted, m) {
      RepeatCountsExactlyAfterExpiry(hash, ttlOf, calls, m);
    }
    RuleCountsFirst(ttlOf, calls, counted, n);
  }

  lemma RuleCountsFirst(ttlOf: VoterId -> nat, calls: seq<Call>, counted: seq<bool>, n: nat)
    requires n < |calls| == |counted| && AllCloseTogether(ttlOf, calls)
    requires forall m: nat :: m < |calls| ==> CountedByRule(ttlOf, calls, counted, m)
    ensures counted[n] <==> forall i: nat :: i < n ==> !SameVoter(calls[i], calls[n])
  {
    assert CountedByRule(ttlOf, calls, counted, n);
    if i: nat :| i < n && SameVoter(calls[i], calls[n]) {
      var f := FirstOfVoter(calls, i);
      assert CountedByRule(ttlOf, calls, counted, f);
      assert counted[f] && Shields(ttlOf, calls[f], calls[n].at);
    }
  }

  lemma CountedExactlyIfNew(hash: VoterId -> nat, ttlOf: VoterId -> nat, calls: seq<Call>)
    requires calls != [] && Orderly(ttlOf, calls)
    ensures var n := |calls| - 1;
            CountsAt(hash, ttlOf, calls, n) <==> calls[n].voter !in LedgerAfter(calls[n].target.poll, calls[..n])
  {
    var n := |calls| - 1;
    var c, init := calls[n], calls[..n];
    CountedExactlyIfFirst(hash, ttlOf, calls, n);
    InLedgerIfCalled(init, c.target.poll, c.voter);
    forall i: nat | i < n
      ensures SameVoter(calls[i], c) <==> init[i].target.poll == c.target.poll && init[i].voter == c.voter
    {
      assert calls[i] in calls && c in calls;
    }
  }

  // ---- The counter hash ----

  /** The hash of a shard that has counted: the tally of its voters, or, once it has lapsed, fewer ballots than that. */
  ghost predicate HashOk(e: Entry, expiry: Time, part: Ledger, whole: bool) {
    && e.Hash? && e.expiry == Some(expiry) && part != map[]
    && (if whole then e.fields == FieldsOf(ViewOf(part)) else FieldValue(e.fields, "b") < |part|)
  }

  ghost predicate ShardOk(db: Db, key: string, last: Option<Time>, part: Ledger, whole: bool) {
    if last.None? then key !in db && part == map[] && whole
    else key in db && HashOk(db[key], last.value, part, whole)
  }

  ghost function ExpiryAfter(ttlOf: VoterId -> nat, last: Option<Call>): Option<Time> {
    if last.None? then None else Some(last.value.at + ttlOf(last.value.voter) * SECOND)
  }

  lemma BallotsField(part: Ledger)
    ensures FieldValue(FieldsOf(ViewOf(part)), "b") == |part|
  {
    FieldAt(ViewOf(part), "b");
  }

  lemma BumpedBallots(fields: map<string, int>, choices: seq<uint8>)
    requires Distinct(choices)
    ensures FieldValue(Bumped(fields, Decimals(choices) + ["b"]), "b") == FieldValue(fields, "b") + 1
  {
    BumpedAt(fields, Decimals(choices) + ["b"], "b");
    OccurrencesWithBallot(choices, "b");
    OccurrencesOfChoices(choices, "b");
  }

  /** A counted call left the hash with one more ballot, on top of what was still there. */
  ghost predicate HashRaised(db: Db, db': Db, c: Call, counter: string, expiry: Option<Time>) {
    && counter in db'
    && db'[counter] == Hash(Bumped(BaseFields(db, c.at, counter), Decimals(c.choices) + ["b"]), expiry)
  }

  /** One more voter: the hash stays whole if it was and is still there ... */
  lemma HashStaysWhole(
    db: Db, db': Db, c: Call, key: string, last: Option<Time>, part: Ledger, expiry: Time)
    requires ShardOk(db, key, last, part, true) && (last.Some? ==> c.at <= last.value)
    requires HashRaised(db, db', c, key, Some(expiry))
    requires c.voter !in part && c.choices != [] && Distinct(c.choices)
    ensures ShardOk(db', key, Some(expiry), part[c.voter := OptionsOf(c.choices)], true)
  {
    BumpedFields(part, c.voter, c.choices, BaseFields(db, c.at, key));
  }

  /** ... and otherwise lags behind from now on. */
  lemma HashLagsBehind(
    db: Db, db': Db, c: Call, key: string, last: Option<Time>, part: Ledger, whole: bool, expiry: Time)
    requires ShardOk(db, key, last, part, whole) && last.Some? && (!whole || c.at > last.value)
    requires HashRaised(db, db', c, key, Some(expiry)) && c.voter !in part && Distinct(c.choices)
    ensures ShardOk(db', key, Some(expiry), part[c.voter := OptionsOf(c.choices)], false)
  {
    BumpedBallots(BaseFields(db, c.at, key), c.choices);
    OneMoreVoter(part, c.voter, OptionsOf(c.choices));
  }

  lemma OneMoreVoter(part: Ledger, v: VoterId, options: set<uint8>)
    requires v !in part
    ensures |part[v := options]| == |part| + 1
    ensures part != map[] ==> |part| > 0
  {
    assert part[v := options].Keys == part.Keys + {v};
    KeysSize(part);
    KeysSize(part[v := options]);
  }

  /** The shard's voters, for one run and one shard. */
  ghost function PartOf(hash: VoterId -> nat, calls: seq<Call>, h: Home): Ledger {
    ShardLedger(hash, h.target, LedgerAfter(h.target.poll, calls), h.shard)
  }

  /** The place of a shard's counter hash in the invariant. */
  ghost predicate Kept(hash: VoterId -> nat, ttlOf: VoterId -> nat, calls: seq<Call>, h: Home) {
    ShardOk(DbAfter(hash, ttlOf, calls), CounterOf(h), ExpiryAfter(ttlOf, LastCounted(hash, ttlOf, calls, h)),
            PartOf(hash, calls, h), NoLapse(hash, ttlOf, calls, h))
  }

  lemma ScriptElsewhere(
    db: Db, at: Time, dedup: string, counter: string, ttl: nat, names: seq<string>, key: string)
    requires key != dedup && (key != counter || Live(db, at, dedup).Some?)
    ensures var db' := ScriptDb(db, at, dedup, counter, ttl, names);
            (key in db' <==> key in db) && (key in db ==> db'[key] == db[key])
  {
  }

  lemma ScriptHere(db: Db, at: Time, dedup: string, counter: string, ttl: nat, names: seq<string>)
    requires dedup != counter && Live(db, at, dedup).None? && !HoldsFlag(db, at, counter)
    ensures var db' := ScriptDb(db, at, dedup, counter, ttl, names);
            counter in db' &&
            db'[counter] == Hash(Bumped(BaseFields(db, at, counter), names + ["b"]), Some(at + ttl * SECOND))
  {
  }

  /** A call for another shard, or one that is not counted, leaves the shard's hash and its voters alone. */
  lemma KeptElsewhere(hash: VoterId -> nat, ttlOf: VoterId -> nat, calls: seq<Call>, h: Home)
    requires calls != [] && Orderly(ttlOf, calls) && Kept(hash, ttlOf, calls[..|calls| - 1], h)
    requires forall c :: c in calls && c.target.poll == h.target.poll ==> c.target == h.target
    requires !(LivesIn(hash, calls[|calls| - 1], h) && CountsAt(hash, ttlOf, calls, |calls| - 1))
    ensures Kept(hash, ttlOf, calls, h)
  {
    var n := |calls| - 1;
    var init, c, s := calls[..n], calls[n], MarkOf(hash, calls[n]).shard;
    var db := DbAfter(hash, ttlOf, init);
    CountedExactlyIfNew(hash, ttlOf, calls);
    CounterNeverFlag(hash, ttlOf, init, c.at, c.target.poll, s);
    CountsMeansUnknown(hash, ttlOf, db, c);
    KeysDisjoint(c.target.poll, s, c.voter, h.target.poll, h.shard);
    if CounterKey(c.target.poll, s) == CounterOf(h) {
      CounterKeyInjective(c.target.poll, s, h.target.poll, h.shard);
    }
    assert c in calls;
    ScriptElsewhere(db, c.at, KeyOf(MarkOf(hash, c)), CounterKey(c.target.poll, s), ttlOf(c.voter),
                    Decimals(c.choices), CounterOf(h));
    SameShardLedger(hash, calls, h);
  }

  lemma SameShardLedger(hash: VoterId -> nat, calls: seq<Call>, h: Home)
    requires calls != []
    requires var c := calls[|calls| - 1];
             || c.target.poll != h.target.poll
             || (c.target == h.target && ShardFor(hash, c.voter, c.target.shardCount) != h.shard)
             || c.voter in LedgerAfter(h.target.poll, calls[..|calls| - 1])
    ensures PartOf(hash, calls, h) == PartOf(hash, calls[..|calls| - 1], h)
  {
  }

  /** A counted call leaves its shard's hash with one more ballot, and with the lifetime it asks for. */
  lemma AppliedHere(hash: VoterId -> nat, ttlOf: VoterId -> nat, db: Db, c: Call, counter: string)
    requires Counts(hash, ttlOf, db, c) && counter == CounterKey(c.target.poll, MarkOf(hash, c).shard)
    requires !HoldsFlag(db, c.at, counter)
    ensures var db' := Applied(db, c.at, hash, c.target, c.voter, c.choices, ttlOf(c.voter));
            HashRaised(db, db', c, counter, ExpiryAfter(ttlOf, Some(c)))
  {
    var s := MarkOf(hash, c).shard;
    CountsMeansUnknown(hash, ttlOf, db, c);
    KeysDisjoint(c.target.poll, s, c.voter, c.target.poll, s);
    ScriptHere(db, c.at, KeyOf(MarkOf(hash, c)), counter, ttlOf(c.voter), Decimals(c.choices));
  }

  lemma HashAfter(hash: VoterId -> nat, ttlOf: VoterId -> nat, calls: seq<Call>, h: Home)
    requires calls != [] && LivesIn(hash, calls[|calls| - 1], h) && CountsAt(hash, ttlOf, calls, |calls| - 1)
    ensures var init, c := calls[..|calls| - 1], calls[|calls| - 1];
            var db, db' := DbAfter(hash, ttlOf, init), DbAfter(hash, ttlOf, calls);
            HashRaised(db, db', c, CounterOf(h), ExpiryAfter(ttlOf, Some(c)))
  {
    var init, c := calls[..|calls| - 1], calls[|calls| - 1];
    CounterNeverFlag(hash, ttlOf, init, c.at, c.target.poll, h.shard);
    AppliedHere(hash, ttlOf, DbAfter(hash, ttlOf, init), c, CounterOf(h));
  }

  lemma PartAfter(hash: VoterId -> nat, ttlOf: VoterId -> nat, calls: seq<Call>, h: Home)
    requires calls != [] && Orderly(ttlOf, calls)
    requires LivesIn(hash, calls[|calls| - 1], h) && CountsAt(hash, ttlOf, calls, |calls| - 1)
    ensures var n := |calls| - 1;
            var before := PartOf(hash, calls[..n], h);
            calls[n].voter !in before && PartOf(hash, calls, h) == before[calls[n].voter := OptionsOf(calls[n].choices)]
  {
    var n := |calls| - 1;
    CountedExactlyIfNew(hash, ttlOf, calls);
    ShardLedgerApplied(
      hash, h.target, LedgerAfter(h.target.poll, calls[..n]), calls[n].voter, OptionsOf(calls[n].choices), h.shard);
  }

  lemma ChainAfter(hash: VoterId -> nat, ttlOf: VoterId -> nat, calls: seq<Call>, h: Home)
    requires calls != [] && LivesIn(hash, calls[|calls| - 1], h) && CountsAt(hash, ttlOf, calls, |calls| - 1)
    ensures LastCounted(hash, ttlOf, calls, h) == Some(calls[|calls| - 1])
    ensures NoLapse(hash, ttlOf, calls, h) <==>
            NoLapseUpTo(hash, ttlOf, calls[..|calls| - 1], h, calls[|calls| - 1].at)
  {
  }

  lemma ShardAfter(
    db: Db, db': Db, c: Call, key: string, last: Option<Time>, part: Ledger, part': Ledger, whole: bool, whole': bool,
    last': Option<Time>)
    requires ShardOk(db, key, last, part, whole) && last'.Some? && HashRaised(db, db', c, key, last')
    requires c.voter !in part && part' == part[c.voter := OptionsOf(c.choices)]
    requires c.choices != [] && Distinct(c.choices)
    requires whole' <==> whole && (last.Some? ==> c.at <= last.value)
    ensures ShardOk(db', key, last', part', whole')
  {
    if whole' {
      HashStaysWhole(db, db', c, key, last, part, last'.value);
    } else {
      HashLagsBehind(db, db', c, key, last, part, whole, last'.value);
    }
  }

  /** A counted call in the shard. */
  lemma KeptHere(hash: VoterId -> nat, ttlOf: VoterId -> nat, calls: seq<Call>, h: Home)
    requires calls != [] && Orderly(ttlOf, calls) && Kept(hash, ttlOf, calls[..|calls| - 1], h)
    requires LivesIn(hash, calls[|calls| - 1], h) && CountsAt(hash, ttlOf, calls, |calls| - 1)
    ensures Kept(hash, ttlOf, calls, h)
  {
    var init, c := calls[..|calls| - 1], calls[|calls| - 1];
    HashAfter(hash, ttlOf, calls, h);
    PartAfter(hash, ttlOf, calls, h);
    ChainAfter(hash, ttlOf, calls, h);
    ShardAfter(
      DbAfter(hash, ttlOf, init), DbAfter(hash, ttlOf, calls), c, CounterOf(h),
      ExpiryAfter(ttlOf, LastCounted(hash, ttlOf, init, h)), PartOf(hash, init, h), PartOf(hash, calls, h),
      NoLapse(hash, ttlOf, init, h), NoLapse(hash, ttlOf, calls, h), ExpiryAfter(ttlOf, Some(c)));
  }

  lemma {:induction false} KeptAlong(hash: VoterId -> nat, ttlOf: VoterId -> nat, calls: seq<Call>, h: Home)
    requires Orderly(ttlOf, calls)
    requires forall c :: c in calls && c.target.poll == h.target.poll ==> c.target == h.target
    ensures Kept(hash, ttlOf, calls, h)
    decreases |calls|
  {
    if calls != [] {
      var n := |calls| - 1;
      OrderlyPrefix(ttlOf, calls);
      assert forall c :: c in calls[..n] ==> c in calls;
      KeptAlong(hash, ttlOf, calls[..n], h);
      if LivesIn(hash, calls[n], h) && CountsAt(hash, ttlOf, calls, n) {
        KeptHere(hash, ttlOf, calls, h);
      } else {
        KeptElsewhere(hash, ttlOf, calls, h);
      }
    }
  }

  lemma OkExactlyIfWhole(db: Db, now: Time, key: string, last: Option<Time>, part: Ledger, whole: bool)
    requires ShardOk(db, key, last, part, whole)
    ensures CounterOk(db, now, key, part) <==> whole && (last.Some? ==> now <= last.value)
  {
    BallotsField(part);
  }

  /**
   * The counterpart of counting twice: of orderly calls, where nobody is counted twice, a shard's hash is the tally of
   * its voters if and only if no quiet spell outlasted the lifetime that the counted call before it had set.
   */
  lemma CounterKeptExactly(
    hash: VoterId -> nat, ttlOf: VoterId -> nat, t: Target, calls: seq<Call>, now: Time, k: nat)
    requires Orderly(ttlOf, calls) && AllBy(calls, now)
    requires forall c :: c in calls && c.target.poll == t.poll ==> c.target == t
    ensures CounterOk(DbAfter(hash, ttlOf, calls), now, CounterKey(t.poll, k),
                      ShardLedger(hash, t, LedgerAfter(t.poll, calls), k)) <==>
            NoLapseUpTo(hash, ttlOf, calls, Home(t, k), now)
  {
    var h := Home(t, k);
    KeptAlong(hash, ttlOf, calls, h);
    OkExactlyIfWhole(
      DbAfter(hash, ttlOf, calls), now, CounterOf(h), ExpiryAfter(ttlOf, LastCounted(hash, ttlOf, calls, h)),
      PartOf(hash, calls, h), NoLapse(hash, ttlOf, calls, h));
  }

  /** All shards of the poll at once: what an aggregation reads is the tally exactly if no shard has lapsed. */
  lemma CountersKeptExactly(hash: VoterId -> nat, ttlOf: VoterId -> nat, t: Target, calls: seq<Call>, now: Time)
    requires Orderly(ttlOf, calls) && AllBy(calls, now)
    requires forall c :: c in calls && c.target.poll == t.poll ==> c.target == t
    ensures CountersOk(DbAfter(hash, ttlOf, calls), now, hash, t, LedgerAfter(t.poll, calls)) <==>
            forall k: nat :: k < t.shardCount ==> NoLapseUpTo(hash, ttlOf, calls, Home(t, k), now)
  {
    forall k: nat
      ensures CounterOk(DbAfter(hash, ttlOf, calls), now, CounterKey(t.poll, k),
                        ShardLedger(hash, t, LedgerAfter(t.poll, calls), k)) <==>
              NoLapseUpTo(hash, ttlOf, calls, Home(t, k), now)
    {
      CounterKeptExactly(hash, ttlOf, t, calls, now, k);
    }
  }

  /** One shard, two voters, the second just after the first one's counter has gone: two counted, one ballot left. */
  lemma QuietSpellForgets(hash: VoterId -> nat, poll: PollId, v: VoterId, w: VoterId, ttl: nat)
    requires v != w && ttl > 0
    ensures var t := Target(poll, 1);
            var calls := [Call(0, t, v, [0]), Call(ttl * SECOND + 1, t, w, [0])];
            && Orderly(u => ttl, calls)
            && |LedgerAfter(poll, calls)| == 2
            && FieldValue(BaseFields(DbAfter(hash, u => ttl, calls), ttl * SECOND + 1, CounterKey(poll, 0)), "b") == 1
  {
    var t := Target(poll, 1);
    var first, second := Call(0, t, v, [0]), Call(ttl * SECOND + 1, t, w, [0]);
    var dv, dw, counter := DedupKey(poll, 0, v), DedupKey(poll, 0, w), CounterKey(poll, 0);
    var db1 := Applied(map[], 0, hash, t, v, [0], ttl);
    var db2 := Applied(db1, second.at, hash, t, w, [0], ttl);
    KeysDisjoint(poll, 0, v, poll, 0);
    KeysDisjoint(poll, 0, w, poll, 0);
    if dv == dw {
      DedupKeyInjective(poll, 0, v, poll, 0, w);
    }
    BallotRaised(map[], 0, hash, t, v, [0], ttl);
    OneBallotLeft(db1, db2, dv, dw, counter, ttl);
    BallotRaised(db1, second.at, hash, t, w, [0], ttl);
    TwoCalls(hash, first, second, ttl);
    TwoVoters(first, second);
  }

  lemma OneBallotLeft(db1: Db, db2: Db, dv: string, dw: string, counter: string, ttl: nat)
    requires dv != dw && dv != counter && dw != counter
    requires Raised(map[], db1, 0, dv, counter, ttl)
    ensures Live(db1, ttl * SECOND + 1, dw).None? && !HoldsFlag(db1, ttl * SECOND + 1, counter)
    ensures Raised(db1, db2, ttl * SECOND + 1, dw, counter, ttl) ==>
              FieldValue(BaseFields(db2, ttl * SECOND + 1, counter), "b") == 1
  {
  }

  lemma TwoCalls(hash: VoterId -> nat, first: Call, second: Call, ttl: nat)
    ensures DbAfter(hash, u => ttl, [first, second]) ==
            Applied(Applied(map[], first.at, hash, first.target, first.voter, first.choices, ttl), second.at, hash,
                    second.target, second.voter, second.choices, ttl)
  {
    var ttlOf := (u: VoterId) => ttl;
    DbAfterOneMore(hash, ttlOf, [], first);
    DbAfterOneMore(hash, ttlOf, [first], second);
    assert [] + [first] == [first] && [first] + [second] == [first, second];
  }

  lemma TwoVoters(first: Call, second: Call)
    requires first.target == second.target && first.voter != second.voter
    ensures |LedgerAfter(first.target.poll, [first, second])| == 2
  {
    var poll, calls := first.target.poll, [first, second];
    assert calls[..1] == [first] && [first][..0] == [];
    assert LedgerAfter(poll, [first]) == map[first.voter := OptionsOf(first.choices)];
    var l := LedgerAfter(poll, calls);
    assert l == map[first.voter := OptionsOf(first.choices), second.voter := OptionsOf(second.choices)];
    assert l.Keys == {first.voter, second.voter};
  }
}
