/**
 * The hypotheses about the environment are not only enough, they are all needed: with any one of them
 * dropped the pipeline has a run that closes the poll on a result that misses a vote.
 */
module HypothesesNeeded {
  import opened Aggregates
  import opened Ledgers
  import opened Texts
  import opened Domain
  import opened Protocol
  import opened Invariants
  import opened Safety
  import opened Theorems
  import opened Progress

  // ---- Building runs ----

  lemma Steps(cfg: Config, s: State, a: Action) returns (s': State)
    requires Reachable(cfg, s) && Enabled(cfg, s, a)
    ensures s' == Next(cfg, s, a) && Reachable(cfg, s')
  {
    Here(cfg, s);
    s' := Step(cfg, s, s, a);
    StillReachable(cfg, s, s');
  }

  lemma Closes(cfg: Config, s: State) returns (s': State)
    requires Reachable(cfg, s) && s.snaps == map[] && s.history != []
    requires Current(s.history).status == Open && Current(s.history).closesAt + cfg.grace <= s.now
    requires forall q: nat :: q < cfg.partitions ==> LooksDrained(cfg, s.pipe, q)
    ensures Reachable(cfg, s') && IsClosed(s') && s'.pipe == s.pipe && s'.now == s.now
    ensures Current(s'.history).closesAt == Current(s.history).closesAt
  {
    Here(cfg, s);
    s' := DrainedPollCanClose(cfg, s, s);
    StillReachable(cfg, s, s');
  }

  lemma Consumes(cfg: Config, s: State, c: nat, a: ConsumerAction) returns (s': State)
    requires Reachable(cfg, s) && ConsumerEnabled(cfg, s.pipe, IsClosed(s), c, a)
    ensures Reachable(cfg, s') && s' == s.(pipe := ConsumerNext(cfg, s.pipe, IsClosed(s), c, a))
  {
    s' := Steps(cfg, s, Consume(c, a));
  }

  /** One record reaches the log. */
  lemma Logs(cfg: Config, s: State, q: nat, rec: Record) returns (s': State)
    requires Reachable(cfg, s) && q < |s.pipe.logs|
    requires cfg.hyp.timelyAppends ==> s.now < cfg.closesAt + cfg.grace
    ensures Reachable(cfg, s') && s' == s.(pipe := s.pipe.(logs := s.pipe.logs[q := s.pipe.logs[q] + [rec]]))
  {
    s' := Steps(cfg, s, Append(q, rec));
  }

  lemma Waits(cfg: Config, s: State, dt: nat) returns (s': State)
    requires Reachable(cfg, s)
    ensures Reachable(cfg, s') && s' == s.(now := s.now + dt)
  {
    s' := Steps(cfg, s, Pass(dt));
  }

  lemma Start(cfg: Config, start: Time) returns (s: State)
    ensures s == Init(cfg, start) && Reachable(cfg, s)
  {
    s := Init(cfg, start);
    assert Runs(cfg, s, []) && After(cfg, s, []) == s;
  }

  // ---- One counterexample per hypothesis ----

  /** A poll somebody can vote in. */
  ghost predicate Votable(cfg: Config) {
    cfg.partitions > 0 && cfg.closesAt != ZERO_TIME && cfg.opensAt < cfg.closesAt
  }

  /** The place of the first record. */
  const SPOT: Slot := Slot(0, 0)

  const SOME_VOTER: VoterId := [0, 0, 0, 0, 0, 0, 0, 0, 0, 0, 0, 0, 0, 0, 0, 0]

  function CountableRecord(cfg: Config): Record {
    Message(cfg.poll, Hex(SOME_VOTER), [0], cfg.opensAt)
  }

  lemma OneChoiceCounts(cfg: Config, v: VoterId, i: uint8)
    requires Votable(cfg)
    ensures BallotOf(cfg, Message(cfg.poll, Hex(v), [i], cfg.opensAt)) == Some(Vote(v, {i}))
  {
    VoterIdRoundTrip(v);
    assert OptionsOf([i]) == {i};
  }

  lemma CountableRecordCounts(cfg: Config)
    requires Votable(cfg)
    ensures BallotOf(cfg, CountableRecord(cfg)) == Some(Vote(SOME_VOTER, {0}))
  {
    OneChoiceCounts(cfg, SOME_VOTER, 0);
  }

  lemma OpenPollAt(cfg: Config, start: Time) returns (s: State)
    ensures Reachable(cfg, s) && s.now == start && s.snaps == map[] && s.admins == map[]
    ensures s.pipe == Init(cfg, start).pipe
    ensures s.history != [] && Current(s.history) == Row(Open, cfg.opensAt, cfg.closesAt, 2)
  {
    var a := Start(cfg, start);
    var b := Steps(cfg, a, Administer(0, Load));
    s := Steps(cfg, b, Administer(0, OpenByHand));
  }

  /** The poll is closed, and the countable record in its log has been missed. */
  ghost predicate ClosedAndMissed(cfg: Config, s: State) {
    && Reachable(cfg, s) && IsClosed(s) && VoteMissed(cfg, s)
    && ValidSlot(s.pipe, SPOT) && RecordAt(s.pipe, SPOT) == CountableRecord(cfg)
    && SOME_VOTER !in s.pipe.ledger
  }

  lemma RecordMissed(cfg: Config, s: State)
    requires Votable(cfg) && Reachable(cfg, s) && IsClosed(s)
    requires ValidSlot(s.pipe, SPOT) && RecordAt(s.pipe, SPOT) == CountableRecord(cfg) && s.pipe.ledger == map[]
    ensures ClosedAndMissed(cfg, s)
  {
    CountableRecordCounts(cfg);
    UncountedIsMissed(cfg, s, SPOT);
  }

  lemma AfterGrace(cfg: Config) returns (s: State)
    ensures Reachable(cfg, s) && s.now == cfg.closesAt + cfg.grace && s.snaps == map[]
    ensures s.pipe == Init(cfg, s.now).pipe
    ensures s.history != [] && Current(s.history) == Row(Open, cfg.opensAt, cfg.closesAt, 2)
  {
    s := OpenPollAt(cfg, cfg.closesAt + cfg.grace);
  }

  ghost predicate NothingLogged(cfg: Config, p: Pipe) {
    && |p.logs| == |p.committed| == cfg.partitions && p.ledger == map[]
    && forall q :: 0 <= q < cfg.partitions ==> p.logs[q] == [] && p.committed[q] == 0
  }

  lemma NothingLoggedAtFirst(cfg: Config, start: Time)
    ensures NothingLogged(cfg, Init(cfg, start).pipe)
  {
  }

  /** Nothing was logged when the poll was closed; a countable record arrives afterwards. */
  lemma CloseThenLog(cfg: Config, open: State) returns (s: State)
    requires Votable(cfg) && Reachable(cfg, open) && open.snaps == map[] && NothingLogged(cfg, open.pipe)
    requires open.history != [] && Current(open.history).status == Open
    requires Current(open.history).closesAt + cfg.grace <= open.now
    requires cfg.hyp.timelyAppends ==> open.now < cfg.closesAt + cfg.grace
    ensures ClosedAndMissed(cfg, s)
    ensures Current(s.history).closesAt == Current(open.history).closesAt && s.now == open.now
  {
    var closed := Closes(cfg, open);
    s := LogsAfterClose(cfg, closed);
  }

  lemma LogsAfterClose(cfg: Config, closed: State) returns (s: State)
    requires Votable(cfg) && Reachable(cfg, closed) && IsClosed(closed) && NothingLogged(cfg, closed.pipe)
    requires cfg.hyp.timelyAppends ==> closed.now < cfg.closesAt + cfg.grace
    ensures ClosedAndMissed(cfg, s) && s.history == closed.history && s.now == closed.now
  {
    s := Logs(cfg, closed, 0, CountableRecord(cfg));
    RecordMissed(cfg, s);
  }

  /** A countable record appended after the close is never counted. */
  lemma LateAppendLoses(cfg: Config) returns (s: State)
    requires Votable(cfg) && !cfg.hyp.timelyAppends
    ensures ClosedAndMissed(cfg, s)
  {
    var a := AfterGrace(cfg);
    NothingLoggedAtFirst(cfg, a.now);
    s := CloseThenLog(cfg, a);
  }

  /** A partition whose lag is unknown is skipped, and its records with it. */
  lemma UnknownLagLoses(cfg: Config) returns (s: State)
    requires Votable(cfg) && !cfg.hyp.knownLags
    ensures ClosedAndMissed(cfg, s)
  {
    var a := OpenPollAt(cfg, cfg.opensAt);
    var b := Logs(cfg, a, 0, CountableRecord(cfg));
    var c := Waits(cfg, b, cfg.closesAt + cfg.grace - cfg.opensAt);
    s := Closes(cfg, c);
    RecordMissed(cfg, s);
  }

  /** The first moment after the countable record's stamp; in a window of a single tick, the stamp itself. */
  function HandCloseTime(cfg: Config): Time {
    if cfg.opensAt + 1 < cfg.closesAt then cfg.opensAt + 1 else cfg.opensAt
  }

  lemma ClosedByHand(cfg: Config) returns (s: State)
    requires Votable(cfg) && !cfg.hyp.fixedWindow
    ensures Reachable(cfg, s) && s.now == HandCloseTime(cfg) && s.snaps == map[]
    ensures s.pipe == Init(cfg, s.now).pipe
    ensures s.history != [] && Current(s.history) == Row(Open, cfg.opensAt, s.now, 3)
  {
    var a := OpenPollAt(cfg, HandCloseTime(cfg));
    var b := Steps(cfg, a, Administer(0, Load));
    s := Steps(cfg, b, Administer(0, CloseByHand(b.now)));
  }

  /**
   * A close by hand ends the grace period early, while records of the old window may still arrive, even records
   * stamped before the moved closing time.
   */
  lemma ManualCloseLoses(cfg: Config) returns (s: State)
    requires Votable(cfg) && !cfg.hyp.fixedWindow
    ensures ClosedAndMissed(cfg, s)
    ensures cfg.opensAt + 1 < cfg.closesAt ==> CountableRecord(cfg).producedAt < Current(s.history).closesAt
    ensures s.now < cfg.closesAt + cfg.grace
  {
    var c := ClosedByHand(cfg);
    NothingLoggedAtFirst(cfg, c.now);
    var d := Waits(cfg, c, cfg.grace);
    s := CloseThenLog(cfg, d);
  }

  /** Partition 0 holds one record and the others none; nothing is committed or counted; the group has one member. */
  ghost predicate WaitingPipe(cfg: Config, p: Pipe, m: Member, done: set<Slot>) {
    && |p.logs| == |p.committed| == cfg.partitions
    && (forall q :: 0 <= q < cfg.partitions ==> |p.logs[q]| == (if q == 0 then 1 else 0) && p.committed[q] == 0)
    && p.members == map[0 := m] && p.done == done && p.ledger == map[]
  }

  /** ... the record is countable, and the poll is open. */
  ghost predicate Waiting(cfg: Config, s: State, m: Member, done: set<Slot>) {
    && Reachable(cfg, s) && s.snaps == map[] && s.now == cfg.opensAt
    && s.history != [] && Current(s.history) == Row(Open, cfg.opensAt, cfg.closesAt, 2)
    && WaitingPipe(cfg, s.pipe, m, done) && 0 < cfg.partitions && s.pipe.logs[0] == [CountableRecord(cfg)]
  }

  function AtOffset(position: nat): Member {
    Member(false, map[0 := position], {}, {}, {})
  }

  lemma Moves(cfg: Config, s: State, m: Member, done: set<Slot>, a: ConsumerAction, m': Member, done': set<Slot>)
    returns (s': State)
    requires Waiting(cfg, s, m, done) && ConsumerEnabled(cfg, s.pipe, false, 0, a)
    requires WaitingPipe(cfg, ConsumerNext(cfg, s.pipe, false, 0, a), m', done') && !a.JoinGroup?
    ensures Waiting(cfg, s', m', done')
  {
    ConsumerStepIsLocal(cfg, s.pipe, false, 0, a);
    s' := Consumes(cfg, s, 0, a);
  }

  lemma AssignIt(cfg: Config, p: Pipe)
    requires cfg.partitions > 0 && WaitingPipe(cfg, p, Member(false, map[], {}, {}, {}), {})
    ensures ConsumerEnabled(cfg, p, false, 0, Assign(0))
    ensures WaitingPipe(cfg, ConsumerNext(cfg, p, false, 0, Assign(0)), AtOffset(0), {})
  {
  }

  lemma FetchIt(cfg: Config, p: Pipe, upTo: map<nat, nat>)
    requires cfg.partitions > 0 && WaitingPipe(cfg, p, AtOffset(0), {}) && upTo == map[0 := 1]
    ensures ConsumerEnabled(cfg, p, false, 0, Fetch(upTo))
    ensures WaitingPipe(cfg, ConsumerNext(cfg, p, false, 0, Fetch(upTo)), AtOffset(1).(batch := {SPOT}), {})
  {
    assert AtOffset(0).position + upTo == upTo && Fetched(AtOffset(0).position, upTo) == {SPOT};
  }

  lemma SkipIt(cfg: Config, p: Pipe, upTo: map<nat, nat>)
    requires cfg.partitions > 0 && WaitingPipe(cfg, p, AtOffset(0), {}) && upTo == map[0 := 1] && !cfg.hyp.cleanErrors
    ensures ConsumerEnabled(cfg, p, false, 0, SkipFetch(upTo))
    ensures WaitingPipe(cfg, ConsumerNext(cfg, p, false, 0, SkipFetch(upTo)), AtOffset(1), {})
  {
    assert AtOffset(0).position + upTo == upTo;
  }

  lemma LaunchIt(cfg: Config, p: Pipe)
    requires WaitingPipe(cfg, p, AtOffset(1).(batch := {SPOT}), {})
    ensures ConsumerEnabled(cfg, p, false, 0, Launch(SPOT))
    ensures WaitingPipe(cfg, ConsumerNext(cfg, p, false, 0, Launch(SPOT)), AtOffset(1).(running := {SPOT}), {})
  {
    assert p.members[0].batch - {SPOT} == {} && p.members[0].running + {SPOT} == {SPOT};
  }

  lemma GiveItUp(cfg: Config, p: Pipe)
    requires cfg.partitions > 0 && WaitingPipe(cfg, p, AtOffset(1).(running := {SPOT}), {}) && !NoneGivenUp(cfg)
    ensures var a := if cfg.hyp.lookupInTime then GiveUp(SPOT) else NotFound(SPOT);
            && ConsumerEnabled(cfg, p, false, 0, a)
            && WaitingPipe(cfg, ConsumerNext(cfg, p, false, 0, a), AtOffset(1), {SPOT})
  {
    assert ValidSlot(p, SPOT);
    assert p.members[0].running - {SPOT} == {} && p.done + {SPOT} == {SPOT};
  }

  /** The group before the record arrives: one member, which owns nothing. */
  lemma MemberJoined(cfg: Config) returns (s: State)
    requires Votable(cfg)
    ensures Reachable(cfg, s) && s.snaps == map[] && s.now == cfg.opensAt
    ensures s.history != [] && Current(s.history) == Row(Open, cfg.opensAt, cfg.closesAt, 2)
    ensures s.pipe == Init(cfg, cfg.opensAt).pipe.(members := map[0 := Member(false, map[], {}, {}, {})])
  {
    var a := OpenPollAt(cfg, cfg.opensAt);
    s := Consumes(cfg, a, 0, JoinGroup);
  }

  lemma RecordAssigned(cfg: Config) returns (s: State)
    requires Votable(cfg)
    ensures Waiting(cfg, s, AtOffset(0), {})
  {
    var a := MemberJoined(cfg);
    var b := Logs(cfg, a, 0, CountableRecord(cfg));
    AssignIt(cfg, b.pipe);
    s := Moves(cfg, b, Member(false, map[], {}, {}, {}), {}, Assign(0), AtOffset(0), {});
  }

  /** A fetch that reports an error and still carries a record: nobody handles it. */
  lemma RecordSkipped(cfg: Config) returns (s: State)
    requires Votable(cfg) && !cfg.hyp.cleanErrors
    ensures Waiting(cfg, s, AtOffset(1), {})
  {
    var a := RecordAssigned(cfg);
    SkipIt(cfg, a.pipe, map[0 := 1]);
    s := Moves(cfg, a, AtOffset(0), {}, SkipFetch(map[0 := 1]), AtOffset(1), {});
  }

  /** A worker gives the record up, for want of a configuration or at an error that is not retried. */
  lemma RecordGivenUp(cfg: Config) returns (s: State)
    requires Votable(cfg) && !NoneGivenUp(cfg)
    ensures Waiting(cfg, s, AtOffset(1), {SPOT})
  {
    var a := RecordAssigned(cfg);
    FetchIt(cfg, a.pipe, map[0 := 1]);
    var b := Moves(cfg, a, AtOffset(0), {}, Fetch(map[0 := 1]), AtOffset(1).(batch := {SPOT}), {});
    LaunchIt(cfg, b.pipe);
    var c := Moves(cfg, b, AtOffset(1).(batch := {SPOT}), {}, Launch(SPOT), AtOffset(1).(running := {SPOT}), {});
    GiveItUp(cfg, c.pipe);
    s := Moves(cfg, c, AtOffset(1).(running := {SPOT}), {},
               if cfg.hyp.lookupInTime then GiveUp(SPOT) else NotFound(SPOT), AtOffset(1), {SPOT});
  }

  lemma CommitIt(cfg: Config, p: Pipe, done: set<Slot>)
    requires cfg.partitions > 0 && WaitingPipe(cfg, p, AtOffset(1), done)
    ensures ConsumerEnabled(cfg, p, false, 0, Commit({0}))
    ensures var p' := ConsumerNext(cfg, p, false, 0, Commit({0}));
            && p'.logs == p.logs && p'.done == done && p'.ledger == map[] && |p'.committed| == cfg.partitions
            && forall q :: 0 <= q < cfg.partitions ==> p'.committed[q] == |p'.logs[q]|
  {
  }

  /** The next commit passes a record that was fetched, whatever became of it. */
  lemma CommitPasses(cfg: Config, s: State, done: set<Slot>) returns (s': State)
    requires Votable(cfg) && Waiting(cfg, s, AtOffset(1), done)
    ensures Reachable(cfg, s') && s'.snaps == map[] && s'.now == cfg.opensAt && s'.history == s.history
    ensures s'.pipe.logs == s.pipe.logs && s'.pipe.done == done && s'.pipe.ledger == map[]
    ensures |s'.pipe.committed| == cfg.partitions
    ensures forall q :: 0 <= q < cfg.partitions ==> s'.pipe.committed[q] == |s'.pipe.logs[q]|
  {
    CommitIt(cfg, s.pipe, done);
    s' := Consumes(cfg, s, 0, Commit({0}));
  }

  /** ... and the poll is closed without it. */
  lemma PassedIsLost(cfg: Config, s: State, done: set<Slot>) returns (s': State)
    requires Votable(cfg) && Waiting(cfg, s, AtOffset(1), done)
    ensures ClosedAndMissed(cfg, s')
  {
    var a := CommitPasses(cfg, s, done);
    var b := Waits(cfg, a, cfg.closesAt + cfg.grace - cfg.opensAt);
    s' := Closes(cfg, b);
    RecordMissed(cfg, s');
  }

  lemma SkippedFetchLoses(cfg: Config) returns (s: State)
    requires Votable(cfg) && !cfg.hyp.cleanErrors
    ensures ClosedAndMissed(cfg, s)
  {
    var a := RecordSkipped(cfg);
    s := PassedIsLost(cfg, a, {});
  }

  lemma GivenUpLoses(cfg: Config) returns (s: State)
    requires Votable(cfg) && !NoneGivenUp(cfg)
    ensures ClosedAndMissed(cfg, s)
  {
    var a := RecordGivenUp(cfg);
    s := PassedIsLost(cfg, a, {SPOT});
  }

  // ---- The exact conditions ----

  /** Commits are safe in every run exactly when an erroring fetch carries no records. */
  lemma CommitSafeExactly(cfg: Config)
    requires Votable(cfg)
    ensures (forall s :: Reachable(cfg, s) ==> CommitSafe(cfg, s)) <==> cfg.hyp.cleanErrors
  {
    if cfg.hyp.cleanErrors {
      forall s | Reachable(cfg, s) ensures CommitSafe(cfg, s) { ReachableInv(cfg, s); }
    } else {
      var skipped := RecordSkipped(cfg);
      var s := CommitPasses(cfg, skipped, {});
      assert SPOT !in s.pipe.done && s.pipe.committed[0] == 1;
      assert !CommitSafe(cfg, s);
    }
  }

  /** A result that misses a vote is not the tally of the log. */
  lemma MissedIsInexact(cfg: Config, s: State)
    requires VoteMissed(cfg, s)
    ensures !ResultExact(cfg, s)
  {
  }

  /**
   * Every close of every run is on the tally of all countable records in the log if and only if all six hypotheses
   * hold; without one of them some run closes on a result that misses a vote.
   */
  lemma ExactExactly(cfg: Config)
    requires Votable(cfg)
    ensures (forall s :: Reachable(cfg, s) && IsClosed(s) ==> ResultExact(cfg, s)) <==> AllHypotheses(cfg)
    ensures (exists s :: Reachable(cfg, s) && IsClosed(s) && VoteMissed(cfg, s)) <==> !AllHypotheses(cfg)
  {
    if AllHypotheses(cfg) {
      forall s | Reachable(cfg, s) && IsClosed(s) ensures ResultExact(cfg, s) && !VoteMissed(cfg, s) {
        ClosedLedger(cfg, s);
      }
    } else {
      var s := SomeRunLoses(cfg);
      MissedIsInexact(cfg, s);
    }
  }

  lemma SomeRunLoses(cfg: Config) returns (s: State)
    requires Votable(cfg) && !AllHypotheses(cfg)
    ensures ClosedAndMissed(cfg, s)
  {
    if !cfg.hyp.cleanErrors {
      s := SkippedFetchLoses(cfg);
    } else if !cfg.hyp.timelyAppends {
      s := LateAppendLoses(cfg);
    } else if !cfg.hyp.fixedWindow {
      s := ManualCloseLoses(cfg);
    } else if !NoneGivenUp(cfg) {
      s := GivenUpLoses(cfg);
    } else {
      s := UnknownLagLoses(cfg);
    }
  }
}
