/** How long dedup keys must live, and what happens to a tally whose keys do not. */
module Expiry {
  import opened Aggregates
  import opened Ledgers
  import opened Keys
  import opened Domain
  import opened Redis
  import opened Tallies
  import opened TallyStore

  // ---- The configuration check ----

  const MINUTE: int := 60 * SECOND
  const SAFETY_MARGIN: int := 10 * MINUTE

  function DedupTtlLowerBound(ttl: int, jitter: real): int {
    Truncate(ttl as real * (1.0 - jitter))
  }

  function DrainBudget(drainWindow: int, grace: int): int {
    drainWindow + grace + SAFETY_MARGIN
  }

  /** validateDedupInvariant: nothing is checked unless both durations are positive. */
  predicate DedupInvariant(ttl: int, jitter: real, drainWindow: int, grace: int) {
    ttl <= 0 || drainWindow <= 0 || DedupTtlLowerBound(ttl, jitter) >= DrainBudget(drainWindow, grace)
  }

  /** The check, written out: the shortest jittered TTL covers drain window, grace period and ten minutes. */
  lemma DedupInvariantExactly(ttl: int, jitter: real, drainWindow: int, grace: int)
    requires 0.0 <= jitter <= 1.0
    ensures DedupInvariant(ttl, jitter, drainWindow, grace) <==>
            || ttl <= 0 || drainWindow <= 0
            || ttl as real * (1.0 - jitter) >= (drainWindow + grace + 600_000_000_000) as real
  {
    if ttl > 0 {
      assert ttl as real * (1.0 - jitter) >= 0.0;
      TruncatedAtLeast(ttl as real * (1.0 - jitter), DrainBudget(drainWindow, grace));
    }
  }

  lemma TruncatedAtLeast(x: real, n: int)
    requires x >= 0.0
    ensures Truncate(x) >= n <==> x >= n as real
  {
  }

  /** The jittered TTL runs evenly from the shortest one to the longest, over two million and one steps of the hash. */
  lemma JitterExactly(ttl: int, jitter: real, h: nat)
    requires jitter >= 0.0
    ensures var r := h % 2_000_001;
            Jittered(ttl, jitter, h) * 1_000_000_000.0 * 2_000_000.0 ==
            ttl as real * (1.0 - jitter) * (2_000_000 - r) as real + ttl as real * (1.0 + jitter) * r as real
  {
    var r, t := (h % 2_000_001) as real, ttl as real;
    assert (2_000_000 - h % 2_000_001) as real == 2_000_000.0 - r;
    var base := t / 1_000_000_000.0;
    Interpolated(t, jitter, r);
    if jitter > 0.0 {
      var frac := r / 1_000_000.0 - 1.0;
      assert Jittered(ttl, jitter, h) == base * (1.0 + jitter * frac);
      ScaledUp(base, t, jitter, r, frac);
    }
  }

  lemma Interpolated(t: real, j: real, r: real)
    ensures t * (1.0 - j) * (2_000_000.0 - r) + t * (1.0 + j) * r == t * (2_000_000.0 + j * (2.0 * r - 2_000_000.0))
  {
    assert t * (1.0 - j) * (2_000_000.0 - r) == t * ((1.0 - j) * (2_000_000.0 - r));
    assert t * (1.0 + j) * r == t * ((1.0 + j) * r);
    assert (1.0 - j) * (2_000_000.0 - r) + (1.0 + j) * r == 2_000_000.0 + j * (2.0 * r - 2_000_000.0);
  }

  lemma ScaledUp(base: real, t: real, j: real, r: real, frac: real)
    requires base * 1_000_000_000.0 == t && frac == r / 1_000_000.0 - 1.0
    ensures base * (1.0 + j * frac) * 1_000_000_000.0 * 2_000_000.0 == t * (2_000_000.0 + j * (2.0 * r - 2_000_000.0))
  {
    assert base * (1.0 + j * frac) * 1_000_000_000.0 == t * (1.0 + j * frac);
    assert frac * 2_000_000.0 == 2.0 * r - 2_000_000.0;
    assert j * frac * 2_000_000.0 == j * (2.0 * r - 2_000_000.0);
    assert t * (1.0 + j * frac) * 2_000_000.0 == t * ((1.0 + j * frac) * 2_000_000.0);
  }

  /** Whole seconds: the fraction is cut off, and there is one second at least. */
  lemma TtlSecondsExactly(ttl: int, jitter: real, h: nat)
    requires ttl > 0 && 0.0 <= jitter <= 0.5
    ensures var s, exact := TtlSeconds(ttl, jitter, h), Jittered(ttl, jitter, h);
            s >= 1 && exact < (s + 1) as real && (s > 1 ==> s as real <= exact)
  {
    JitteredBound(ttl, jitter, h);
  }

  lemma JitterBound(base: real, jitter: real, frac: real)
    requires base >= 0.0 && 0.0 <= jitter <= 0.5 && -1.0 <= frac <= 1.0
    ensures base * (1.0 + jitter * frac) >= base * (1.0 - jitter)
    ensures base * (1.0 - jitter) >= 0.0
  {
    assert jitter * (1.0 + frac) >= 0.0;
    assert jitter * frac >= -jitter;
    var d := jitter * frac + jitter;
    assert base * d >= 0.0;
    assert base * (1.0 + jitter * frac) == base * (1.0 - jitter) + base * d;
  }

  lemma FracRange(h: nat)
    ensures -1.0 <= (h % 2_000_001) as real / 1_000_000.0 - 1.0 <= 1.0
  {
  }

  lemma Scaled(base: real, total: real, factor: real, x: real, unit: real)
    requires base * unit == total && unit > 0.0 && x >= base * factor
    ensures x * unit >= total * factor
  {
    assert (x - base * factor) * unit >= 0.0;
    assert base * factor * unit == base * unit * factor;
  }

  lemma JitteredAtLeast(base: real, jitter: real, frac: real)
    requires base >= 0.0 && 0.0 <= jitter <= 0.5 && -1.0 <= frac <= 1.0
    ensures (if jitter > 0.0 then base * (1.0 + jitter * frac) else base) >= base * (1.0 - jitter) >= 0.0
  {
    JitterBound(base, jitter, frac);
    if jitter == 0.0 {
      assert base * (1.0 - jitter) == base * 1.0;
    }
  }

  lemma JitteredBound(ttl: int, jitter: real, h: nat)
    requires ttl > 0 && 0.0 <= jitter <= 0.5
    ensures Jittered(ttl, jitter, h) * SECOND as real >= ttl as real * (1.0 - jitter)
    ensures Jittered(ttl, jitter, h) >= 0.0
  {
    FracRange(h);
    JitteredAtLeast(ttl as real / SECOND as real, jitter, (h % 2_000_001) as real / 1_000_000.0 - 1.0);
    Scaled(ttl as real / SECOND as real, ttl as real, 1.0 - jitter, Jittered(ttl, jitter, h), SECOND as real);
  }

  lemma WholeSeconds(x: real, s: int)
    requires x >= 0.0 && s == if Truncate(x) < 1 then 1 else Truncate(x)
    ensures s as real + 1.0 > x
  {
  }

  /** Every voter's key lives at least the jittered lower bound, less the fraction of a second cut off. */
  lemma TtlAboveLowerBound(ttl: int, jitter: real, h: nat)
    requires ttl > 0 && 0.0 <= jitter <= 0.5
    ensures (TtlSeconds(ttl, jitter, h) + 1) as real * SECOND as real > ttl as real * (1.0 - jitter)
  {
    JitteredBound(ttl, jitter, h);
    WholeSeconds(Jittered(ttl, jitter, h), TtlSeconds(ttl, jitter, h));
  }

  /** A configuration that passes the check keeps every dedup key past drain window and grace, 30 seconds if unset. */
  lemma TtlCoversTheDrain(ttl: int, jitter: real, drainWindow: int, grace: int, h: nat)
    requires ttl > 0 && drainWindow > 0 && grace >= 0 && 0.0 <= jitter <= 0.5
    requires DedupInvariant(ttl, jitter, drainWindow, grace)
    ensures TtlSeconds(ttl, jitter, h) * 1_000_000_000 > drainWindow + (if grace == 0 then 30_000_000_000 else grace)
  {
    TtlAboveLowerBound(ttl, jitter, h);
    JitterBound(ttl as real, jitter, 0.0);
    assert ttl as real * (1.0 - jitter) >= DedupTtlLowerBound(ttl, jitter) as real;
    assert ((TtlSeconds(ttl, jitter, h) + 1) * SECOND) as real > DrainBudget(drainWindow, grace) as real;
  }

  // ---- Runs shorter than the shortest key lifetime ----

  ghost predicate AllOutlive(db: Db, until: Time) {
    forall key :: key in db ==> Outlives(db[key], until)
  }

  /** While every key still has time to live, waiting changes nothing. */
  lemma WaitingKeeps(db: Db, now: Time, later: Time, hash: VoterId -> nat, t: Target, l: Ledger)
    requires Represents(db, now, hash, t, l) && AllOutlive(db, later) && now <= later
    ensures Represents(db, later, hash, t, l)
  {
    forall key ensures Live(db, later, key) == Live(db, now, key) {
      if key in db {
        assert Outlives(db[key], later);
      }
    }
    forall k: nat | k < t.shardCount
      ensures CounterOk(db, later, CounterKey(t.poll, k), ShardLedger(hash, t, l, k))
    {
      assert CounterOk(db, now, CounterKey(t.poll, k), ShardLedger(hash, t, l, k));
    }
  }

  lemma ScriptOutlives(db: Db, now: Time, until: Time, dedup: string, counter: string, ttl: nat, names: seq<string>)
    requires AllOutlive(db, until) && until <= now + ttl * SECOND
    ensures AllOutlive(ScriptDb(db, now, dedup, counter, ttl, names), until)
  {
    var db' := ScriptDb(db, now, dedup, counter, ttl, names);
    forall key | key in db' ensures Outlives(db'[key], until) {
      if key in db {
        assert Outlives(db[key], until);
      }
    }
  }

  /** One Apply reaching Redis at some moment, for whichever poll. */
  datatype Call = Call(at: Time, target: Target, voter: VoterId, choices: seq<uint8>)

  ghost predicate WellFormed(c: Call) {
    c.target.shardCount > 0 && c.choices != [] && Distinct(c.choices)
  }

  ghost function DbAfter(hash: VoterId -> nat, ttlOf: VoterId -> nat, calls: seq<Call>): Db {
    if calls == [] then map[]
    else
      var c := calls[|calls| - 1];
      Applied(DbAfter(hash, ttlOf, calls[..|calls| - 1]), c.at, hash, c.target, c.voter, c.choices, ttlOf(c.voter))
  }

  /** The poll's votes among the calls, first one per voter. */
  ghost function LedgerAfter(poll: PollId, calls: seq<Call>): Ledger {
    if calls == [] then map[]
    else
      var c := calls[|calls| - 1];
      var l := LedgerAfter(poll, calls[..|calls| - 1]);
      if c.target.poll == poll then ApplyVote(l, Vote(c.voter, OptionsOf(c.choices))) else l
  }

  /** Calls in time order, from start to end. */
  ghost predicate Between(calls: seq<Call>, start: Time, end: Time) {
    && (forall i :: 0 <= i < |calls| ==> start <= calls[i].at <= end)
    && (forall i, j :: 0 <= i < j < |calls| ==> calls[i].at <= calls[j].at)
  }

  /**
   * Sharding and expiry together refine the simple tally: after any calls for any polls, at any moment less
   * than the shortest key lifetime after the first of them, the store holds each poll's first votes.
   */
  lemma {:induction false} TimedStoreRefinesLedger(
    hash: VoterId -> nat, ttlOf: VoterId -> nat, t: Target, calls: seq<Call>, start: Time, now: Time, lifetime: nat)
    requires forall v :: ttlOf(v) * SECOND >= lifetime
    requires forall c :: c in calls ==> WellFormed(c) && (c.target.poll == t.poll ==> c.target == t)
    requires start <= now <= start + lifetime && Between(calls, start, now)
    ensures Represents(DbAfter(hash, ttlOf, calls), now, hash, t, LedgerAfter(t.poll, calls))
    ensures AllOutlive(DbAfter(hash, ttlOf, calls), start + lifetime)
    decreases |calls|
  {
    if calls == [] {
      EmptyRepresents(now, hash, t);
    } else {
      var init, c := calls[..|calls| - 1], calls[|calls| - 1];
      assert Between(init, start, c.at);
      TimedStoreRefinesLedger(hash, ttlOf, t, init, start, c.at, lifetime);
      var db, l := DbAfter(hash, ttlOf, init), LedgerAfter(t.poll, init);
      assert WellFormed(c);
      assert ttlOf(c.voter) * SECOND >= lifetime;
      var k := ShardFor(hash, c.voter, c.target.shardCount);
      ScriptOutlives(db, c.at, start + lifetime, DedupKey(c.target.poll, k, c.voter), CounterKey(c.target.poll, k),
                     ttlOf(c.voter), Decimals(c.choices));
      if c.target.poll == t.poll {
        ApplyRefinesLedger(db, c.at, hash, t, l, c.voter, c.choices, ttlOf(c.voter));
      } else {
        OtherPollUntouched(db, c.at, hash, t, l, c.target, c.voter, c.choices, ttlOf(c.voter));
      }
      var db' := DbAfter(hash, ttlOf, calls);
      AllOutliveSooner(db', now, start + lifetime);
      WaitingKeeps(db', c.at, now, hash, t, LedgerAfter(t.poll, calls));
    }
  }

  lemma AllOutliveSooner(db: Db, sooner: Time, later: Time)
    requires AllOutlive(db, later) && sooner <= later
    ensures AllOutlive(db, sooner)
  {
    forall key | key in db ensures Outlives(db[key], sooner) {
      assert Outlives(db[key], later);
    }
  }
}
