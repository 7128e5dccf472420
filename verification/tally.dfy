/** The sharded Redis tally: applying votes through the script and reading the counters back. */
module Tallies {
  import opened Aggregates
  import opened Ledgers
  import opened Texts
  import opened Keys
  import opened Domain
  import opened Redis

  // ---- Counter hashes as text ----

  ghost function FieldNames(a: Aggregate): set<string> {
    (set i | i in a.votes :: Decimal(i)) + {"b"}
  }

  /** The counter hash of a group of voters: a field per chosen option, and b for the ballots. */
  ghost function FieldsOf(a: Aggregate): map<string, int> {
    map f | f in FieldNames(a) ::
      if f == "b" then a.ballots else if ParseUint8(f).Some? then Get(a, ParseUint8(f).value) else 0
  }

  function Decimals(choices: seq<uint8>): seq<string> {
    if choices == [] then [] else Decimals(choices[..|choices| - 1]) + [Decimal(choices[|choices| - 1])]
  }

  function Occurrences(names: seq<string>, f: string): nat {
    if names == [] then 0
    else Occurrences(names[..|names| - 1], f) + (if names[|names| - 1] == f then 1 else 0)
  }

  lemma {:induction false} BumpedAt(fields: map<string, int>, names: seq<string>, f: string)
    ensures FieldValue(Bumped(fields, names), f) == FieldValue(fields, f) + Occurrences(names, f)
    ensures f in Bumped(fields, names) <==> f in fields || Occurrences(names, f) > 0
    decreases |names|
  {
    if names != [] {
      BumpedAt(fields, names[..|names| - 1], f);
    }
  }

  /** Distinct choices put each option's field among the arguments once, and no other field. */
  lemma {:induction false} OccurrencesOfChoices(choices: seq<uint8>, f: string)
    requires Distinct(choices)
    ensures Occurrences(Decimals(choices), f) ==
            if ParseUint8(f).Some? && f == Decimal(ParseUint8(f).value) && ParseUint8(f).value in choices then 1 else 0
    decreases |choices|
  {
    if choices != [] {
      var init, last := choices[..|choices| - 1], choices[|choices| - 1];
      var names := Decimals(choices);
      assert names[..|names| - 1] == Decimals(init) && names[|names| - 1] == Decimal(last);
      OccurrencesOfChoices(init, f);
      FieldRoundTrip(last);
      assert choices == init + [last];
      assert last !in init;
    }
  }

  lemma OccurrencesWithBallot(choices: seq<uint8>, f: string)
    requires Distinct(choices)
    ensures Occurrences(Decimals(choices) + ["b"], f) ==
            Occurrences(Decimals(choices), f) + (if f == "b" then 1 else 0)
  {
    var names := Decimals(choices);
    assert (names + ["b"])[..|names|] == names;
  }

  lemma FieldAt(a: Aggregate, f: string)
    ensures f in FieldsOf(a) <==>
            || f == "b"
            || (ParseUint8(f).Some? && f == Decimal(ParseUint8(f).value) && ParseUint8(f).value in a.votes)
    ensures f in FieldsOf(a) ==> FieldsOf(a)[f] == if f == "b" then a.ballots else Get(a, ParseUint8(f).value)
  {
    if f in FieldNames(a) && f != "b" {
      var i :| i in a.votes && f == Decimal(i);
      FieldRoundTrip(i);
    }
  }

  lemma OptionOrBallots(f: string)
    ensures ParseUint8("b").None?
    ensures ParseUint8(f).Some? ==> f != "b"
  {
  }

  lemma BumpedFieldAt(l: Ledger, v: VoterId, choices: seq<uint8>, start: map<string, int>, f: string)
    requires v !in l && choices != [] && Distinct(choices)
    requires start == if l == map[] then map[] else FieldsOf(ViewOf(l))
    ensures var after, wanted := Bumped(start, Decimals(choices) + ["b"]), FieldsOf(ViewOf(l[v := OptionsOf(choices)]));
            (f in after <==> f in wanted) && (f in after ==> after[f] == wanted[f])
  {
    var vote := Vote(v, OptionsOf(choices));
    var m := ApplyVote(l, vote);
    BumpedAt(start, Decimals(choices) + ["b"], f);
    OccurrencesWithBallot(choices, f);
    OccurrencesOfChoices(choices, f);
    OptionOrBallots(f);
    ViewOfApplied(l, vote);
    FieldAt(ViewOf(m), f);
    if l == map[] {
      ViewOfEmpty();
    } else {
      FieldAt(ViewOf(l), f);
    }
    if ParseUint8(f).Some? {
      ViewAt(l, ParseUint8(f).value);
      ViewAt(m, ParseUint8(f).value);
    }
  }

  /** The script's increments turn the fields of a shard into the fields of the shard with one more voter. */
  lemma BumpedFields(l: Ledger, v: VoterId, choices: seq<uint8>, start: map<string, int>)
    requires v !in l && choices != [] && Distinct(choices)
    requires start == if l == map[] then map[] else FieldsOf(ViewOf(l))
    ensures Bumped(start, Decimals(choices) + ["b"]) == FieldsOf(ViewOf(l[v := OptionsOf(choices)]))
  {
    var after, wanted := Bumped(start, Decimals(choices) + ["b"]), FieldsOf(ViewOf(l[v := OptionsOf(choices)]));
    forall f ensures (f in after <==> f in wanted) && (f in after ==> after[f] == wanted[f]) {
      BumpedFieldAt(l, v, choices, start, f);
    }
    assert after.Keys == wanted.Keys;
  }

  // ---- What a store represents ----

  datatype Target = Target(poll: PollId, shardCount: nat)

  predicate ValidTarget(t: Target) {
    t.poll != NIL_POLL && t.shardCount > 0
  }

  ghost function ShardLedger(hash: VoterId -> nat, t: Target, l: Ledger, k: nat): Ledger {
    InShards(l, v => ShardFor(hash, v, t.shardCount), {k})
  }

  /** A dedup marker stands for a counted voter, and only in that voter's own shard. */
  ghost predicate DedupOk(db: Db, now: Time, hash: VoterId -> nat, t: Target, l: Ledger) {
    forall v: VoterId, k: nat :: k < t.shardCount ==>
      (Live(db, now, DedupKey(t.poll, k, v)).Some? <==> v in l && k == ShardFor(hash, v, t.shardCount))
  }

  /** One shard's counter hash is exactly the tally of its voters; there is none before the first vote. */
  ghost predicate CounterOk(db: Db, now: Time, key: string, l: Ledger) {
    if l == map[] then Live(db, now, key).None?
    else
      && Live(db, now, key).Some? && Live(db, now, key).value.Hash?
      && Live(db, now, key).value.fields == FieldsOf(ViewOf(l))
  }

  ghost predicate CountersOk(db: Db, now: Time, hash: VoterId -> nat, t: Target, l: Ledger) {
    forall k: nat :: k < t.shardCount ==> CounterOk(db, now, CounterKey(t.poll, k), ShardLedger(hash, t, l, k))
  }

  /** The store holds the poll's ledger, sharded. */
  ghost predicate Represents(db: Db, now: Time, hash: VoterId -> nat, t: Target, l: Ledger) {
    DedupOk(db, now, hash, t, l) && CountersOk(db, now, hash, t, l)
  }

  lemma EmptyRepresents(now: Time, hash: VoterId -> nat, t: Target)
    ensures Represents(map[], now, hash, t, map[])
  {
    forall k: nat | k < t.shardCount
      ensures CounterOk(map[], now, CounterKey(t.poll, k), ShardLedger(hash, t, map[], k))
    {
      assert ShardLedger(hash, t, map[], k) == map[];
    }
  }

  /** The store after the vote script ran for this voter. */
  ghost function Applied(
    db: Db, now: Time, hash: VoterId -> nat, t: Target, v: VoterId, choices: seq<uint8>, ttl: nat): Db
  {
    var k := ShardFor(hash, v, t.shardCount);
    ScriptDb(db, now, DedupKey(t.poll, k, v), CounterKey(t.poll, k), ttl, Decimals(choices))
  }

  lemma OnlyTheseKeys(db: Db, now: Time, dedup: string, counter: string, ttl: nat, names: seq<string>, key: string)
    requires key != dedup && key != counter
    ensures Live(ScriptDb(db, now, dedup, counter, ttl, names), now, key) == Live(db, now, key)
  {
  }

  lemma ScriptOnFreshVoter(db: Db, now: Time, dedup: string, counter: string, ttl: nat, names: seq<string>)
    requires dedup != counter && Live(db, now, dedup).None? && !HoldsFlag(db, now, counter)
    ensures var db' := ScriptDb(db, now, dedup, counter, ttl, names);
            && ScriptOutcome(db, now, dedup, counter, ttl) == Replied(1)
            && Live(db', now, dedup).Some?
            && Live(db', now, counter) ==
                 Some(Hash(Bumped(BaseFields(db, now, counter), names + ["b"]), Some(now + ttl * SECOND)))
  {
  }

  lemma CounterHoldsNoFlag(db: Db, now: Time, hash: VoterId -> nat, t: Target, l: Ledger, k: nat)
    requires CountersOk(db, now, hash, t, l) && k < t.shardCount
    ensures !HoldsFlag(db, now, CounterKey(t.poll, k))
    ensures BaseFields(db, now, CounterKey(t.poll, k)) ==
            if ShardLedger(hash, t, l, k) == map[] then map[] else FieldsOf(ViewOf(ShardLedger(hash, t, l, k)))
  {
    assert CounterOk(db, now, CounterKey(t.poll, k), ShardLedger(hash, t, l, k));
  }

  lemma ShardLedgerApplied(hash: VoterId -> nat, t: Target, l: Ledger, v: VoterId, options: set<uint8>, k: nat)
    requires v !in l
    ensures ShardLedger(hash, t, l[v := options], k) ==
            if k == ShardFor(hash, v, t.shardCount) then ShardLedger(hash, t, l, k)[v := options]
            else ShardLedger(hash, t, l, k)
  {
  }

  lemma AppliedKeepsDedup(
    db: Db, now: Time, hash: VoterId -> nat, t: Target, l: Ledger, v: VoterId, choices: seq<uint8>, ttl: nat)
    requires t.shardCount > 0 && Represents(db, now, hash, t, l) && v !in l
    ensures DedupOk(Applied(db, now, hash, t, v, choices, ttl), now, hash, t, l[v := OptionsOf(choices)])
  {
    var s := ShardFor(hash, v, t.shardCount);
    var dedup, counter := DedupKey(t.poll, s, v), CounterKey(t.poll, s);
    var db' := Applied(db, now, hash, t, v, choices, ttl);
    KeysDisjoint(t.poll, s, v, t.poll, s);
    CounterHoldsNoFlag(db, now, hash, t, l, s);
    ScriptOnFreshVoter(db, now, dedup, counter, ttl, Decimals(choices));
    forall w: VoterId, k: nat | k < t.shardCount
      ensures Live(db', now, DedupKey(t.poll, k, w)).Some? <==>
              w in l[v := OptionsOf(choices)] && k == ShardFor(hash, w, t.shardCount)
    {
      if DedupKey(t.poll, k, w) == dedup {
        DedupKeyInjective(t.poll, k, w, t.poll, s, v);
      } else {
        KeysDisjoint(t.poll, k, w, t.poll, s);
        OnlyTheseKeys(db, now, dedup, counter, ttl, Decimals(choices), DedupKey(t.poll, k, w));
      }
    }
  }

  lemma AppliedKeepsCounters(
    db: Db, now: Time, hash: VoterId -> nat, t: Target, l: Ledger, v: VoterId, choices: seq<uint8>, ttl: nat)
    requires t.shardCount > 0 && Represents(db, now, hash, t, l) && v !in l
    requires choices != [] && Distinct(choices)
    ensures CountersOk(Applied(db, now, hash, t, v, choices, ttl), now, hash, t, l[v := OptionsOf(choices)])
  {
    var s := ShardFor(hash, v, t.shardCount);
    var dedup, counter := DedupKey(t.poll, s, v), CounterKey(t.poll, s);
    var db', l' := Applied(db, now, hash, t, v, choices, ttl), l[v := OptionsOf(choices)];
    KeysDisjoint(t.poll, s, v, t.poll, s);
    CounterHoldsNoFlag(db, now, hash, t, l, s);
    forall k: nat | k < t.shardCount
      ensures CounterOk(db', now, CounterKey(t.poll, k), ShardLedger(hash, t, l', k))
    {
      ShardLedgerApplied(hash, t, l, v, OptionsOf(choices), k);
      if k == s {
        ScriptOnFreshVoter(db, now, dedup, counter, ttl, Decimals(choices));
        BumpedFields(ShardLedger(hash, t, l, k), v, choices, BaseFields(db, now, counter));
      } else {
        OtherShardUntouched(db, now, hash, t, l, v, choices, ttl, k);
      }
    }
  }

  lemma OtherShardUntouched(
    db: Db, now: Time, hash: VoterId -> nat, t: Target, l: Ledger, v: VoterId, choices: seq<uint8>, ttl: nat, k: nat)
    requires t.shardCount > 0 && k < t.shardCount && k != ShardFor(hash, v, t.shardCount)
    requires CounterOk(db, now, CounterKey(t.poll, k), ShardLedger(hash, t, l, k))
    ensures var db' := Applied(db, now, hash, t, v, choices, ttl);
            CounterOk(db', now, CounterKey(t.poll, k), ShardLedger(hash, t, l, k))
  {
    var s := ShardFor(hash, v, t.shardCount);
    if CounterKey(t.poll, k) == CounterKey(t.poll, s) {
      CounterKeyInjective(t.poll, k, t.poll, s);
    }
    KeysDisjoint(t.poll, s, v, t.poll, k);
    OnlyTheseKeys(
      db, now, DedupKey(t.poll, s, v), CounterKey(t.poll, s), ttl, Decimals(choices), CounterKey(t.poll, k));
  }

  /** The script refines the simple tally: first vote in, one ballot; any further vote of the voter, nothing. */
  lemma ApplyRefinesLedger(
    db: Db, now: Time, hash: VoterId -> nat, t: Target, l: Ledger, v: VoterId, choices: seq<uint8>, ttl: nat)
    requires t.shardCount > 0 && Represents(db, now, hash, t, l)
    requires choices != [] && Distinct(choices)
    ensures var db' := Applied(db, now, hash, t, v, choices, ttl);
            Represents(db', now, hash, t, ApplyVote(l, Vote(v, OptionsOf(choices))))
    ensures var k := ShardFor(hash, v, t.shardCount);
            ScriptOutcome(db, now, DedupKey(t.poll, k, v), CounterKey(t.poll, k), ttl) ==
            Replied(if v in l then 2 else 1)
  {
    var s := ShardFor(hash, v, t.shardCount);
    if v in l {
      assert Live(db, now, DedupKey(t.poll, s, v)).Some?;
    } else {
      AppliedKeepsDedup(db, now, hash, t, l, v, choices, ttl);
      AppliedKeepsCounters(db, now, hash, t, l, v, choices, ttl);
      KeysDisjoint(t.poll, s, v, t.poll, s);
      CounterHoldsNoFlag(db, now, hash, t, l, s);
      assert Live(db, now, DedupKey(t.poll, s, v)).None?;
      ScriptOnFreshVoter(db, now, DedupKey(t.poll, s, v), CounterKey(t.poll, s), ttl, Decimals(choices));
    }
  }

  /** A vote in one poll leaves every other poll's tally alone. */
  lemma OtherPollUntouched(
    db: Db, now: Time, hash: VoterId -> nat, t: Target, l: Ledger, other: Target, v: VoterId, choices: seq<uint8>,
    ttl: nat)
    requires other.poll != t.poll && Represents(db, now, hash, t, l)
    ensures Represents(Applied(db, now, hash, other, v, choices, ttl), now, hash, t, l)
  {
    var s := ShardFor(hash, v, other.shardCount);
    var dedup, counter := DedupKey(other.poll, s, v), CounterKey(other.poll, s);
    var db' := Applied(db, now, hash, other, v, choices, ttl);
    forall w: VoterId, k: nat ensures Live(db', now, DedupKey(t.poll, k, w)) == Live(db, now, DedupKey(t.poll, k, w)) {
      if DedupKey(t.poll, k, w) == dedup {
        DedupKeyInjective(t.poll, k, w, other.poll, s, v);
      }
      KeysDisjoint(t.poll, k, w, other.poll, s);
      OnlyTheseKeys(db, now, dedup, counter, ttl, Decimals(choices), DedupKey(t.poll, k, w));
    }
    forall k: nat | k < t.shardCount
      ensures CounterOk(db', now, CounterKey(t.poll, k), ShardLedger(hash, t, l, k))
    {
      if CounterKey(t.poll, k) == counter {
        CounterKeyInjective(t.poll, k, other.poll, s);
      }
      KeysDisjoint(other.poll, s, v, t.poll, k);
      OnlyTheseKeys(db, now, dedup, counter, ttl, Decimals(choices), CounterKey(t.poll, k));
    }
  }
}
