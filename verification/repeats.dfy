/** Runs longer than the dedup keys live: exactly which repeats are counted again. */
module Repeats {
  import opened Aggregates
  import opened Ledgers
  import opened Texts
  import opened Keys
  import opened Domain
  import opened Redis
  import opened Tallies
  import opened Expiry

  ghost predicate InTimeOrder(calls: seq<Call>) {
    forall i, j :: 0 <= i < j < |calls| ==> calls[i].at <= calls[j].at
  }

  ghost predicate AllBy(calls: seq<Call>, now: Time) {
    forall i :: 0 <= i < |calls| ==> calls[i].at <= now
  }

  /** All calls for one poll use one shard count. */
  ghost predicate OneTargetPerPoll(calls: seq<Call>) {
    forall c, d :: c in calls && d in calls && c.target.poll == d.target.poll ==> c.target == d.target
  }

  /** What a dedup key stands for: a voter in a shard of a poll. */
  datatype Mark = Mark(poll: PollId, shard: nat, voter: VoterId)

  ghost function MarkOf(hash: VoterId -> nat, c: Call): Mark {
    Mark(c.target.poll, ShardFor(hash, c.voter, c.target.shardCount), c.voter)
  }

  ghost function KeyOf(m: Mark): string {
    DedupKey(m.poll, m.shard, m.voter)
  }

  /** The reply to a call that finds this store: whether it is "counted". */
  ghost predicate Counts(hash: VoterId -> nat, ttlOf: VoterId -> nat, db: Db, c: Call) {
    var counter := CounterKey(c.target.poll, ShardFor(hash, c.voter, c.target.shardCount));
    ScriptOutcome(db, c.at, KeyOf(MarkOf(hash, c)), counter, ttlOf(c.voter)) == Replied(1)
  }

  ghost predicate CountsAt(hash: VoterId -> nat, ttlOf: VoterId -> nat, calls: seq<Call>, n: nat)
    requires n < |calls|
  {
    Counts(hash, ttlOf, DbAfter(hash, ttlOf, calls[..n]), calls[n])
  }

  /** Which of the calls are counted. */
  ghost function Counted(hash: VoterId -> nat, ttlOf: VoterId -> nat, calls: seq<Call>): seq<bool> {
    seq(|calls|, n requires 0 <= n < |calls| => CountsAt(hash, ttlOf, calls, n))
  }

  /** The dedup key of call c is still alive at this moment. */
  ghost predicate Shields(ttlOf: VoterId -> nat, c: Call, now: Time) {
    now <= c.at + ttlOf(c.voter) * SECOND
  }

  ghost predicate ShieldedBy(
    hash: VoterId -> nat, ttlOf: VoterId -> nat, calls: seq<Call>, counted: seq<bool>, m: Mark, now: Time, i: nat)
  {
    i < |calls| && i < |counted| && counted[i] && MarkOf(hash, calls[i]) == m && Shields(ttlOf, calls[i], now)
  }

  /** Some counted call still shields the key. */
  ghost predicate Shielded(
    hash: VoterId -> nat, ttlOf: VoterId -> nat, calls: seq<Call>, counted: seq<bool>, m: Mark, now: Time)
  {
    exists i: nat :: ShieldedBy(hash, ttlOf, calls, counted, m, now, i)
  }

  lemma ScriptLeavesNoFlag(
    db: Db, at: Time, now: Time, dedup: string, counter: string, ttl: nat, names: seq<string>, key: string)
    requires key != dedup && !HoldsFlag(db, now, key)
    ensures !HoldsFlag(ScriptDb(db, at, dedup, counter, ttl, names), now, key)
  {
  }

  /** The script changes a key other than the counter only if it is the dedup key and gone, and then sets it afresh. */
  lemma ScriptAtKey(
    db: Db, at: Time, now: Time, dedup: string, counter: string, ttl: nat, names: seq<string>, key: string)
    requires at <= now && dedup != counter && key != counter && !HoldsFlag(db, at, counter)
    ensures Live(ScriptDb(db, at, dedup, counter, ttl, names), now, key).Some? <==>
            if key == dedup && Live(db, at, key).None? then now <= at + ttl * SECOND else Live(db, now, key).Some?
  {
  }

  lemma {:induction false} CounterNeverFlag(
    hash: VoterId -> nat, ttlOf: VoterId -> nat, calls: seq<Call>, now: Time, poll: PollId, k: nat)
    ensures !HoldsFlag(DbAfter(hash, ttlOf, calls), now, CounterKey(poll, k))
    decreases |calls|
  {
    if calls != [] {
      var init, c := calls[..|calls| - 1], calls[|calls| - 1];
      var s := ShardFor(hash, c.voter, c.target.shardCount);
      CounterNeverFlag(hash, ttlOf, init, now, poll, k);
      KeysDisjoint(c.target.poll, s, c.voter, poll, k);
      ScriptLeavesNoFlag(DbAfter(hash, ttlOf, init), c.at, now, DedupKey(c.target.poll, s, c.voter),
                         CounterKey(c.target.poll, s), ttlOf(c.voter), Decimals(c.choices), CounterKey(poll, k));
    }
  }

  lemma CountsMeansUnknown(hash: VoterId -> nat, ttlOf: VoterId -> nat, db: Db, c: Call)
    requires !HoldsFlag(db, c.at, CounterKey(c.target.poll, ShardFor(hash, c.voter, c.target.shardCount)))
    ensures Counts(hash, ttlOf, db, c) <==> Live(db, c.at, KeyOf(MarkOf(hash, c))).None?
  {
    var k := ShardFor(hash, c.voter, c.target.shardCount);
    KeysDisjoint(c.target.poll, k, c.voter, c.target.poll, k);
  }

  lemma CountsInPrefix(hash: VoterId -> nat, ttlOf: VoterId -> nat, calls: seq<Call>, n: nat, i: nat)
    requires i < n <= |calls|
    ensures CountsAt(hash, ttlOf, calls[..n], i) == CountsAt(hash, ttlOf, calls, i)
  {
    assert calls[..n][..i] == calls[..i];
  }

  lemma CountedInPrefix(hash: VoterId -> nat, ttlOf: VoterId -> nat, calls: seq<Call>, n: nat)
    requires n <= |calls|
    ensures Counted(hash, ttlOf, calls[..n]) == Counted(hash, ttlOf, calls)[..n]
  {
    forall i: nat | i < n ensures CountsAt(hash, ttlOf, calls[..n], i) == CountsAt(hash, ttlOf, calls, i) {
      CountsInPrefix(hash, ttlOf, calls, n, i);
    }
  }

  lemma PrefixInOrder(calls: seq<Call>, n: nat, now: Time)
    requires n < |calls| && InTimeOrder(calls) && calls[n].at <= now
    ensures InTimeOrder(calls[..n]) && AllBy(calls[..n], now)
  {
  }

  lemma KeysMarkExactly(m: Mark, n: Mark)
    ensures KeyOf(m) == KeyOf(n) <==> m == n
  {
    if KeyOf(m) == KeyOf(n) {
      DedupKeyInjective(m.poll, m.shard, m.voter, n.poll, n.shard, n.voter);
    }
  }

  /** One more call changes whether a dedup key is alive only if it is the key's own and is counted. */
  lemma LiveAfterOne(hash: VoterId -> nat, ttlOf: VoterId -> nat, db: Db, c: Call, now: Time, m: Mark)
    requires c.at <= now && !HoldsFlag(db, c.at, CounterKey(c.target.poll, MarkOf(hash, c).shard))
    ensures var db' := Applied(db, c.at, hash, c.target, c.voter, c.choices, ttlOf(c.voter));
            Live(db', now, KeyOf(m)).Some? <==>
            if MarkOf(hash, c) == m && Counts(hash, ttlOf, db, c) then Shields(ttlOf, c, now)
            else Live(db, now, KeyOf(m)).Some?
  {
    var s := MarkOf(hash, c).shard;
    KeysMarkExactly(MarkOf(hash, c), m);
    KeysDisjoint(m.poll, m.shard, m.voter, c.target.poll, s);
    KeysDisjoint(c.target.poll, s, c.voter, c.target.poll, s);
    CountsMeansUnknown(hash, ttlOf, db, c);
    ScriptAtKey(db, c.at, now, KeyOf(MarkOf(hash, c)), CounterKey(c.target.poll, s), ttlOf(c.voter),
                Decimals(c.choices), KeyOf(m));
  }

  /** Of all calls so far, in time order: a dedup key is alive if and only if a counted one still shields it. */
  lemma {:induction false} LiveExactlyWhileShielded(
    hash: VoterId -> nat, ttlOf: VoterId -> nat, calls: seq<Call>, now: Time, m: Mark)
    requires InTimeOrder(calls) && AllBy(calls, now)
    ensures Live(DbAfter(hash, ttlOf, calls), now, KeyOf(m)).Some? <==>
            Shielded(hash, ttlOf, calls, Counted(hash, ttlOf, calls), m, now)
    decreases |calls|
  {
    if calls != [] {
      var init, c := calls[..|calls| - 1], calls[|calls| - 1];
      PrefixInOrder(calls, |init|, now);
      LiveExactlyWhileShielded(hash, ttlOf, init, now, m);
      CounterNeverFlag(hash, ttlOf, init, c.at, c.target.poll, MarkOf(hash, c).shard);
      LiveAfterOne(hash, ttlOf, DbAfter(hash, ttlOf, init), c, now, m);
      ShieldedAfterOne(hash, ttlOf, calls, m, now);
    }
  }

  lemma ShieldedAfterOne(hash: VoterId -> nat, ttlOf: VoterId -> nat, calls: seq<Call>, m: Mark, now: Time)
    requires calls != [] && InTimeOrder(calls)
    ensures var n := |calls| - 1;
            Shielded(hash, ttlOf, calls, Counted(hash, ttlOf, calls), m, now) <==>
            if MarkOf(hash, calls[n]) == m && CountsAt(hash, ttlOf, calls, n) then Shields(ttlOf, calls[n], now)
            else Shielded(hash, ttlOf, calls[..n], Counted(hash, ttlOf, calls[..n]), m, now)
  {
    CountedInPrefix(hash, ttlOf, calls, |calls| - 1);
    LatestDecides(hash, ttlOf, calls, Counted(hash, ttlOf, calls), m, now);
  }

  /** The latest counted call of a key decides alone: it shields the key longest. */
  lemma LatestDecides(
    hash: VoterId -> nat, ttlOf: VoterId -> nat, calls: seq<Call>, counted: seq<bool>, m: Mark, now: Time)
    requires |counted| == |calls| > 0 && InTimeOrder(calls)
    ensures var n := |calls| - 1;
            Shielded(hash, ttlOf, calls, counted, m, now) <==>
            if MarkOf(hash, calls[n]) == m && counted[n] then Shields(ttlOf, calls[n], now)
            else Shielded(hash, ttlOf, calls[..n], counted[..n], m, now)
  {
    var n := |calls| - 1;
    if i: nat :| ShieldedBy(hash, ttlOf, calls[..n], counted[..n], m, now, i) {
      assert ShieldedBy(hash, ttlOf, calls, counted, m, now, i);
    }
    if i: nat :| ShieldedBy(hash, ttlOf, calls, counted, m, now, i) {
      assert i < n ==> ShieldedBy(hash, ttlOf, calls[..n], counted[..n], m, now, i);
    }
    if counted[n] && MarkOf(hash, calls[n]) == m && Shields(ttlOf, calls[n], now) {
      assert ShieldedBy(hash, ttlOf, calls, counted, m, now, n);
    }
  }

  /** Both calls are the same voter's, in the same poll. */
  ghost predicate SameVoter(c: Call, d: Call) {
    c.target == d.target && c.voter == d.voter
  }

  lemma CountedExactlyIfUnshielded(hash: VoterId -> nat, ttlOf: VoterId -> nat, calls: seq<Call>, n: nat)
    requires n < |calls| && InTimeOrder(calls)
    ensures var before, c, counted := calls[..n], calls[n], Counted(hash, ttlOf, calls);
            counted[n] <==> !Shielded(hash, ttlOf, before, counted[..n], MarkOf(hash, c), c.at)
  {
    var c, before := calls[n], calls[..n];
    CountedInPrefix(hash, ttlOf, calls, n);
    PrefixInOrder(calls, n, c.at);
    CounterNeverFlag(hash, ttlOf, before, c.at, c.target.poll, MarkOf(hash, c).shard);
    CountsMeansUnknown(hash, ttlOf, DbAfter(hash, ttlOf, before), c);
    LiveExactlyWhileShielded(hash, ttlOf, before, c.at, MarkOf(hash, c));
  }

  /** The n-th call is counted if and only if no counted one of the same voter in the same poll shields it. */
  ghost predicate CountedByRule(ttlOf: VoterId -> nat, calls: seq<Call>, counted: seq<bool>, n: nat)
    requires n < |calls| == |counted|
  {
    counted[n] <==>
    forall i: nat :: i < n && counted[i] && SameVoter(calls[i], calls[n]) ==> !Shields(ttlOf, calls[i], calls[n].at)
  }

  /**
   * Whatever came before it, a call is counted if and only if every earlier counted call of that voter in that poll is
   * more than the lifetime of its dedup key ago.
   */
  lemma RepeatCountsExactlyAfterExpiry(hash: VoterId -> nat, ttlOf: VoterId -> nat, calls: seq<Call>, n: nat)
    requires n < |calls| && InTimeOrder(calls) && OneTargetPerPoll(calls)
    ensures CountedByRule(ttlOf, calls, Counted(hash, ttlOf, calls), n)
  {
    var counted := Counted(hash, ttlOf, calls);
    CountedExactlyIfUnshielded(hash, ttlOf, calls, n);
    ShieldedInPrefix(hash, ttlOf, calls, counted, n);
  }

  lemma ShieldedInPrefix(
    hash: VoterId -> nat, ttlOf: VoterId -> nat, calls: seq<Call>, counted: seq<bool>, n: nat)
    requires n < |calls| == |counted| && OneTargetPerPoll(calls)
    ensures Shielded(hash, ttlOf, calls[..n], counted[..n], MarkOf(hash, calls[n]), calls[n].at) <==>
            exists i: nat ::
              i < n && counted[i] && SameVoter(calls[i], calls[n]) && Shields(ttlOf, calls[i], calls[n].at)
  {
    var c := calls[n];
    forall i: nat | i < n
      ensures ShieldedBy(hash, ttlOf, calls[..n], counted[..n], MarkOf(hash, c), c.at, i) <==>
              counted[i] && SameVoter(calls[i], c) && Shields(ttlOf, calls[i], c.at)
    {
      assert calls[i] in calls && c in calls;
    }
  }

  /** No call of the voter comes after the dedup key of an earlier one would have expired. */
  ghost predicate CloseTogether(ttlOf: VoterId -> nat, calls: seq<Call>, d: Call) {
    forall i: nat, j: nat :: i < j < |calls| && SameVoter(calls[i], d) && SameVoter(calls[j], d) ==>
      Shields(ttlOf, calls[i], calls[j].at)
  }

  ghost predicate CountedTwice(calls: seq<Call>, counted: seq<bool>, d: Call)
    requires |calls| == |counted|
  {
    exists i: nat, j: nat ::
      i < j < |calls| && SameVoter(calls[i], d) && SameVoter(calls[j], d) && counted[i] && counted[j]
  }

  /**
   * Exactly when a voter is counted twice in a poll: if and only if two of the voter's calls are further apart than the
   * lifetime of the dedup key.
   */
  lemma CountedTwiceExactly(hash: VoterId -> nat, ttlOf: VoterId -> nat, calls: seq<Call>, d: Call)
    requires InTimeOrder(calls) && OneTargetPerPoll(calls)
    ensures CountedTwice(calls, Counted(hash, ttlOf, calls), d) <==> !CloseTogether(ttlOf, calls, d)
  {
    var counted := Counted(hash, ttlOf, calls);
    forall n: nat | n < |calls| ensures CountedByRule(ttlOf, calls, counted, n) {
      RepeatCountsExactlyAfterExpiry(hash, ttlOf, calls, n);
    }
    RuleCountsTwice(ttlOf, calls, counted, d);
  }

  lemma RuleCountsTwice(ttlOf: VoterId -> nat, calls: seq<Call>, counted: seq<bool>, d: Call)
    requires |calls| == |counted| && InTimeOrder(calls)
    requires forall n: nat :: n < |calls| ==> CountedByRule(ttlOf, calls, counted, n)
    ensures CountedTwice(calls, counted, d) <==> !CloseTogether(ttlOf, calls, d)
  {
    if i: nat, j: nat :|
      i < j < |calls| && SameVoter(calls[i], d) && SameVoter(calls[j], d) && counted[i] && counted[j]
    {
      assert CountedByRule(ttlOf, calls, counted, j);
    }
    if !CloseTogether(ttlOf, calls, d) {
      var i: nat, j: nat :| i < j < |calls| && SameVoter(calls[i], d) && SameVoter(calls[j], d) &&
        !Shields(ttlOf, calls[i], calls[j].at);
      FarApartCountedTwice(ttlOf, calls, counted, i, j);
    }
  }

  lemma {:induction false} FirstOfVoter(calls: seq<Call>, i: nat) returns (f: nat)
    requires i < |calls|
    ensures f <= i && SameVoter(calls[f], calls[i])
    ensures forall k :: 0 <= k < f ==> !SameVoter(calls[k], calls[i])
    decreases i
  {
    if k: nat :| k < i && SameVoter(calls[k], calls[i]) {
      f := FirstOfVoter(calls, k);
    } else {
      f := i;
    }
  }

  /** Of two calls that far apart, the voter's first call and some later one are both counted. */
  lemma FarApartCountedTwice(ttlOf: VoterId -> nat, calls: seq<Call>, counted: seq<bool>, i: nat, j: nat)
    requires i < j < |calls| == |counted| && InTimeOrder(calls)
    requires forall n: nat :: n < |calls| ==> CountedByRule(ttlOf, calls, counted, n)
    requires SameVoter(calls[i], calls[j]) && !Shields(ttlOf, calls[i], calls[j].at)
    ensures CountedTwice(calls, counted, calls[i])
  {
    var f := FirstOfVoter(calls, i);
    assert CountedByRule(ttlOf, calls, counted, f) && CountedByRule(ttlOf, calls, counted, j);
    assert counted[f] && !Shields(ttlOf, calls[f], calls[j].at);
    if !counted[j] {
      var m: nat :| m < j && counted[m] && SameVoter(calls[m], calls[j]) && Shields(ttlOf, calls[m], calls[j].at);
      assert f < m;
    }
  }

  /** Three calls of two voters, the last of them a repeat made after its dedup key has gone. */
  ghost function Revote(t: Target, v: VoterId, w: VoterId, ttl: nat): seq<Call> {
    [Call(0, t, v, [0]), Call(ttl * SECOND, t, w, [0]), Call(ttl * SECOND + 1, t, v, [0])]
  }

  /** A counted vote seen at its two keys: marker and hash live until ttl from now, one more ballot, nothing else. */
  ghost predicate Raised(db: Db, db': Db, now: Time, dedup: string, counter: string, ttl: nat) {
    && dedup in db' && db'[dedup] == Flag(now + ttl * SECOND)
    && counter in db' && db'[counter].Hash? && db'[counter].expiry == Some(now + ttl * SECOND)
    && FieldValue(db'[counter].fields, "b") == FieldValue(BaseFields(db, now, counter), "b") + 1
    && (forall key :: key != dedup && key != counter ==>
          (key in db' <==> key in db) && (key in db ==> db'[key] == db[key]))
  }

  lemma BallotRaised(db: Db, now: Time, hash: VoterId -> nat, t: Target, v: VoterId, choices: seq<uint8>, ttl: nat)
    requires t.shardCount == 1 && Distinct(choices)
    requires Live(db, now, DedupKey(t.poll, 0, v)).None? && !HoldsFlag(db, now, CounterKey(t.poll, 0))
    ensures var db' := Applied(db, now, hash, t, v, choices, ttl);
            Raised(db, db', now, DedupKey(t.poll, 0, v), CounterKey(t.poll, 0), ttl)
  {
    var dedup, counter := DedupKey(t.poll, 0, v), CounterKey(t.poll, 0);
    KeysDisjoint(t.poll, 0, v, t.poll, 0);
    ScriptOnFreshVoter(db, now, dedup, counter, ttl, Decimals(choices));
    BumpedAt(BaseFields(db, now, counter), Decimals(choices) + ["b"], "b");
    OccurrencesWithBallot(choices, "b");
    OccurrencesOfChoices(choices, "b");
  }

  lemma ThreeBallots(db1: Db, db2: Db, db3: Db, dv: string, dw: string, counter: string, ttl: nat)
    requires dv != dw && dv != counter && dw != counter && ttl > 0
    requires Raised(map[], db1, 0, dv, counter, ttl)
    ensures Live(db1, ttl * SECOND, dw).None? && !HoldsFlag(db1, ttl * SECOND, counter)
    ensures Raised(db1, db2, ttl * SECOND, dw, counter, ttl) ==>
              Live(db2, ttl * SECOND + 1, dv).None? && !HoldsFlag(db2, ttl * SECOND + 1, counter)
    ensures Raised(db1, db2, ttl * SECOND, dw, counter, ttl) && Raised(db2, db3, ttl * SECOND + 1, dv, counter, ttl) ==>
              FieldValue(BaseFields(db3, ttl * SECOND + 1, counter), "b") == 3
  {
  }

  lemma RevoteLedger(t: Target, v: VoterId, w: VoterId, ttl: nat)
    requires v != w
    ensures |LedgerAfter(t.poll, Revote(t, v, w, ttl))| == 2
  {
    var calls := Revote(t, v, w, ttl);
    assert calls[..2] == [calls[0], calls[1]] && calls[..2][..1] == [calls[0]] && calls[..2][..1][..0] == [];
    assert LedgerAfter(t.poll, calls[..2][..1]) == map[v := OptionsOf([0])];
    assert LedgerAfter(t.poll, calls) == map[v := OptionsOf([0]), w := OptionsOf([0])];
    assert LedgerAfter(t.poll, calls).Keys == {v, w};
  }

  lemma DbAfterOneMore(hash: VoterId -> nat, ttlOf: VoterId -> nat, calls: seq<Call>, c: Call)
    ensures DbAfter(hash, ttlOf, calls + [c]) ==
            Applied(DbAfter(hash, ttlOf, calls), c.at, hash, c.target, c.voter, c.choices, ttlOf(c.voter))
  {
    assert (calls + [c])[..|calls|] == calls;
  }

  lemma RevoteDb(hash: VoterId -> nat, t: Target, v: VoterId, w: VoterId, ttl: nat)
    ensures var db1 := Applied(map[], 0, hash, t, v, [0], ttl);
            var db2 := Applied(db1, ttl * SECOND, hash, t, w, [0], ttl);
            DbAfter(hash, u => ttl, Revote(t, v, w, ttl)) == Applied(db2, ttl * SECOND + 1, hash, t, v, [0], ttl)
  {
    var calls := Revote(t, v, w, ttl);
    var ttlOf := (u: VoterId) => ttl;
    DbAfterOneMore(hash, ttlOf, [], calls[0]);
    DbAfterOneMore(hash, ttlOf, [calls[0]], calls[1]);
    DbAfterOneMore(hash, ttlOf, [calls[0], calls[1]], calls[2]);
    assert [] + [calls[0]] == [calls[0]];
    assert [calls[0]] + [calls[1]] == [calls[0], calls[1]];
    assert calls == [calls[0], calls[1]] + [calls[2]];
  }

  /**
   * Nothing ties the TTL to the length of a poll: with one shard, two voters and a run one tick longer than
   * the TTL, the counter says three ballots.
   */
  lemma LongRunCountsTwice(hash: VoterId -> nat, poll: PollId, v: VoterId, w: VoterId, ttl: nat)
    requires v != w && ttl > 0
    ensures var calls := Revote(Target(poll, 1), v, w, ttl);
            && |LedgerAfter(poll, calls)| == 2
            && FieldValue(BaseFields(DbAfter(hash, u => ttl, calls), ttl * SECOND + 1, CounterKey(poll, 0)), "b") == 3
  {
    var t := Target(poll, 1);
    var dv, dw, counter := DedupKey(poll, 0, v), DedupKey(poll, 0, w), CounterKey(poll, 0);
    KeysDisjoint(poll, 0, v, poll, 0);
    KeysDisjoint(poll, 0, w, poll, 0);
    if dv == dw {
      DedupKeyInjective(poll, 0, v, poll, 0, w);
    }
    var db1 := Applied(map[], 0, hash, t, v, [0], ttl);
    var db2 := Applied(db1, ttl * SECOND, hash, t, w, [0], ttl);
    var db3 := Applied(db2, ttl * SECOND + 1, hash, t, v, [0], ttl);
    BallotRaised(map[], 0, hash, t, v, [0], ttl);
    ThreeBallots(db1, db2, db3, dv, dw, counter, ttl);
    BallotRaised(db1, ttl * SECOND, hash, t, w, [0], ttl);
    BallotRaised(db2, ttl * SECOND + 1, hash, t, v, [0], ttl);
    RevoteLedger(t, v, w, ttl);
    RevoteDb(hash, t, v, w, ttl);
  }
}
