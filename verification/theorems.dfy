/** What the pipeline guarantees over whole runs. */
module Theorems {
  import opened Aggregates
  import opened Ledgers
  import opened Texts
  import opened Domain
  import opened Protocol
  import opened Invariants
  import opened Safety

  // ---- Runs ----

  ghost predicate Reachable(cfg: Config, s: State) {
    exists start: Time, trace: seq<Action> ::
      Runs(cfg, Init(cfg, start), trace) && After(cfg, Init(cfg, start), trace) == s
  }

  lemma ReachableInv(cfg: Config, s: State)
    requires Reachable(cfg, s)
    ensures Inv(cfg, s)
  {
    var start: Time, trace: seq<Action> :|
      Runs(cfg, Init(cfg, start), trace) && After(cfg, Init(cfg, start), trace) == s;
    InitOk(cfg, start);
    RunKeepsInv(cfg, Init(cfg, start), trace);
  }

  /** A run split at its last action. */
  lemma {:induction false} LastStep(cfg: Config, s: State, trace: seq<Action>)
    requires Runs(cfg, s, trace) && trace != []
    ensures var init, last := trace[..|trace| - 1], trace[|trace| - 1];
            Runs(cfg, s, init) && Enabled(cfg, After(cfg, s, init), last) &&
            After(cfg, s, trace) == Next(cfg, After(cfg, s, init), last)
    decreases |trace|
  {
    if |trace| > 1 {
      var rest, init := trace[1..], trace[..|trace| - 1];
      LastStep(cfg, Next(cfg, s, trace[0]), rest);
      assert init[1..] == rest[..|rest| - 1] && init[0] == trace[0];
      assert rest[|rest| - 1] == trace[|trace| - 1];
    }
  }

  // ---- At-least-once ----

  /** A commit never passes a record that has not finished. */
  ghost predicate CommitSafe(cfg: Config, s: State) {
    forall q: nat, o: nat :: q < |s.pipe.committed| && o < s.pipe.committed[q] ==> Slot(q, o) in s.pipe.done
  }

  /** The terminal outcome with which a worker finishes the record at t. Being interrupted is none. */
  predicate Finishes(cfg: Config, s: State, step: ConsumerAction, t: Slot, rec: Record) {
    || (step == Reply(t) && BallotOf(cfg, rec).Some? && BallotOf(cfg, rec).value.voter in s.pipe.ledger)
    || (step == Reject(t) && BallotOf(cfg, rec).None?)
    || (step == NotFound(t) && (IsClosed(s) || !cfg.hyp.lookupInTime))
    || (step == GiveUp(t) && !cfg.hyp.passingErrors)
  }

  /** The action at k finishes the record at t. */
  ghost predicate FinishedAt(cfg: Config, s: State, trace: seq<Action>, k: nat, t: Slot, rec: Record) {
    && k < |trace| && Runs(cfg, s, trace[..k]) && trace[k].Consume?
    && var before := After(cfg, s, trace[..k]);
       ValidSlot(before.pipe, t) && RecordAt(before.pipe, t) == rec && Finishes(cfg, before, trace[k].step, t, rec)
  }

  lemma FinishesOnce(cfg: Config, s: State, a: Action, t: Slot)
    requires Enabled(cfg, s, a) && t !in s.pipe.done && t in Next(cfg, s, a).pipe.done
    ensures a.Consume? && ValidSlot(s.pipe, t) && Finishes(cfg, s, a.step, t, RecordAt(s.pipe, t))
  {
    if a.Snapshot? {
      SnapStepIsLocal(cfg, s, a.id, a.act);
    }
  }

  lemma RecordStays(cfg: Config, s: State, a: Action, t: Slot)
    requires Enabled(cfg, s, a) && ValidSlot(s.pipe, t)
    ensures ValidSlot(Next(cfg, s, a).pipe, t) && RecordAt(Next(cfg, s, a).pipe, t) == RecordAt(s.pipe, t)
  {
    match a
    case Consume(c, step) => ConsumerStepIsLocal(cfg, s.pipe, IsClosed(s), c, step);
    case Snapshot(id, act) => SnapStepIsLocal(cfg, s, id, act);
    case _ =>
  }

  /** A record is finished only by some worker, with one of the terminal outcomes for that very record. */
  lemma {:induction false} FinishedByAWorker(cfg: Config, start: Time, trace: seq<Action>, t: Slot)
    requires Runs(cfg, Init(cfg, start), trace)
    requires t in After(cfg, Init(cfg, start), trace).pipe.done
    ensures var s := After(cfg, Init(cfg, start), trace);
            && ValidSlot(s.pipe, t)
            && exists k: nat :: FinishedAt(cfg, Init(cfg, start), trace, k, t, RecordAt(s.pipe, t))
    decreases |trace|
  {
    if trace != [] {
      LastStep(cfg, Init(cfg, start), trace);
      var init, a := trace[..|trace| - 1], trace[|trace| - 1];
      var s := After(cfg, Init(cfg, start), init);
      if t in s.pipe.done {
        FinishedByAWorker(cfg, start, init, t);
        RecordStays(cfg, s, a, t);
        var k: nat :| FinishedAt(cfg, Init(cfg, start), init, k, t, RecordAt(s.pipe, t));
        assert trace[..k] == init[..k];
        assert FinishedAt(cfg, Init(cfg, start), trace, k, t, RecordAt(s.pipe, t));
      } else {
        FinishesOnce(cfg, s, a, t);
        RecordStays(cfg, s, a, t);
        assert FinishedAt(cfg, Init(cfg, start), trace, |trace| - 1, t, RecordAt(s.pipe, t));
      }
    }
  }

  /**
   * In every run, every record below a committed offset was finished by a worker: answered with its voter counted by
   * then, refused for good, or found to belong to a poll that was closed by then; unless workers may give countable
   * records up.
   */
  lemma AtLeastOnceCommit(cfg: Config, start: Time, trace: seq<Action>, t: Slot)
    requires Runs(cfg, Init(cfg, start), trace) && cfg.hyp.cleanErrors
    requires var p := After(cfg, Init(cfg, start), trace).pipe; t.part < |p.committed| && t.off < p.committed[t.part]
    ensures var s := After(cfg, Init(cfg, start), trace);
            && t in s.pipe.done && ValidSlot(s.pipe, t)
            && var rec := RecordAt(s.pipe, t);
               && (exists k: nat :: FinishedAt(cfg, Init(cfg, start), trace, k, t, rec))
               && NothingLost(cfg, s.pipe, rec, IsClosed(s))
               && (AllHypotheses(cfg) ==> BallotOf(cfg, rec).None? || BallotOf(cfg, rec).value.voter in s.pipe.ledger)
  {
    var s := After(cfg, Init(cfg, start), trace);
    assert Reachable(cfg, s);
    ReachableInv(cfg, s);
    assert Slot(t.part, t.off) == t;
    FinishedByAWorker(cfg, start, trace, t);
  }

  // ---- First vote wins ----

  /** The first script call of a voter in a run. */
  ghost function FirstCall(trace: seq<Action>, v: VoterId): Option<set<uint8>> {
    if trace == [] then None
    else
      var before := FirstCall(trace[..|trace| - 1], v);
      var a := trace[|trace| - 1];
      if before.Some? then before
      else if a.Script? && a.vote.voter == v then Some(a.vote.options)
      else None
  }

  /** The ledger records exactly the first call of each voter, however often calls are repeated or delayed. */
  lemma {:induction false} FirstVoteWins(cfg: Config, start: Time, trace: seq<Action>, v: VoterId)
    requires Runs(cfg, Init(cfg, start), trace)
    ensures var l := After(cfg, Init(cfg, start), trace).pipe.ledger;
            FirstCall(trace, v) == if v in l then Some(l[v]) else None
    decreases |trace|
  {
    if trace != [] {
      LastStep(cfg, Init(cfg, start), trace);
      var init := trace[..|trace| - 1];
      FirstVoteWins(cfg, start, init, v);
      OnlyScriptsCount(cfg, After(cfg, Init(cfg, start), init), trace[|trace| - 1]);
    }
  }

  lemma OnlyScriptsCount(cfg: Config, s: State, a: Action)
    requires Enabled(cfg, s, a)
    ensures Next(cfg, s, a).pipe.ledger == if a.Script? then ApplyVote(s.pipe.ledger, a.vote) else s.pipe.ledger
  {
    match a
    case Consume(c, step) => ConsumerStepIsLocal(cfg, s.pipe, IsClosed(s), c, step);
    case Snapshot(id, act) => SnapStepIsLocal(cfg, s, id, act);
    case _ =>
  }

  // ---- What counts ----

  /**
   * A vote of v in this poll, read off the record itself: this poll's, stamped inside the window, with a voter text
   * that denotes v, and with choices of which there are some and no two are the same.
   */
  ghost predicate Genuine(cfg: Config, rec: Record, v: VoterId) {
    && rec.Message? && rec.poll == cfg.poll
    && cfg.closesAt != 0 && cfg.opensAt <= rec.producedAt < cfg.closesAt
    && ParseVoterId(rec.voter) == Some(v)
    && |rec.choices| > 0 && (forall i, j :: 0 <= i < j < |rec.choices| ==> rec.choices[i] != rec.choices[j])
  }

  /** The consumer's checks let exactly the genuine votes through, each with all its choices. */
  lemma CountableExactly(cfg: Config, rec: Record, v: VoterId)
    ensures Genuine(cfg, rec, v) <==> BallotOf(cfg, rec).Some? && BallotOf(cfg, rec).value.voter == v
    ensures Genuine(cfg, rec, v) ==> BallotOf(cfg, rec).value.options == set i | i in rec.choices
  {
  }

  /** No record is countable in two polls. */
  lemma CountableInOnePoll(c1: Config, c2: Config, rec: Record)
    requires BallotOf(c1, rec).Some? && BallotOf(c2, rec).Some?
    ensures c1.poll == c2.poll
  {
    CountableExactly(c1, rec, BallotOf(c1, rec).value.voter);
    CountableExactly(c2, rec, BallotOf(c2, rec).value.voter);
  }

  /** The record at this place of the log is a genuine vote of v. */
  ghost predicate GenuineAt(cfg: Config, logs: seq<seq<Record>>, q: nat, o: nat, v: VoterId) {
    q < |logs| && o < |logs[q]| && Genuine(cfg, logs[q][o], v)
  }

  // ---- Exactness ----

  ghost function VotersIn(cfg: Config, log: seq<Record>): set<VoterId> {
    if log == [] then {}
    else
      var b := BallotOf(cfg, log[|log| - 1]);
      VotersIn(cfg, log[..|log| - 1]) + (if b.Some? then {b.value.voter} else {})
  }

  /** Distinct voters with a countable record anywhere in the first n partitions. */
  ghost function VotersInLogs(cfg: Config, logs: seq<seq<Record>>): set<VoterId> {
    if logs == [] then {} else VotersInLogs(cfg, logs[..|logs| - 1]) + VotersIn(cfg, logs[|logs| - 1])
  }

  /** The record at this position is a countable one of this voter. */
  ghost predicate Casts(cfg: Config, logs: seq<seq<Record>>, q: nat, o: nat, v: VoterId) {
    && q < |logs| && o < |logs[q]|
    && BallotOf(cfg, logs[q][o]).Some? && BallotOf(cfg, logs[q][o]).value.voter == v
  }

  lemma {:induction false} VotersInMembers(cfg: Config, log: seq<Record>, v: VoterId)
    ensures v in VotersIn(cfg, log) <==> exists o: nat :: Casts(cfg, [log], 0, o, v)
    decreases |log|
  {
    if log != [] {
      var init := log[..|log| - 1];
      VotersInMembers(cfg, init, v);
      if o: nat :| Casts(cfg, [init], 0, o, v) {
        assert Casts(cfg, [log], 0, o, v);
      }
      if o: nat :| Casts(cfg, [log], 0, o, v) {
        if o < |init| {
          assert Casts(cfg, [init], 0, o, v);
        }
      }
      if BallotOf(cfg, log[|log| - 1]).Some? && BallotOf(cfg, log[|log| - 1]).value.voter == v {
        assert Casts(cfg, [log], 0, |log| - 1, v);
      }
    }
  }

  lemma {:induction false} VotersInLogsMembers(cfg: Config, logs: seq<seq<Record>>, v: VoterId)
    ensures v in VotersInLogs(cfg, logs) <==> exists q: nat, o: nat :: Casts(cfg, logs, q, o, v)
    decreases |logs|
  {
    if logs != [] {
      var init, last := logs[..|logs| - 1], logs[|logs| - 1];
      VotersInLogsMembers(cfg, init, v);
      VotersInMembers(cfg, last, v);
      if q: nat, o: nat :| Casts(cfg, init, q, o, v) {
        assert Casts(cfg, logs, q, o, v);
      }
      if o: nat :| Casts(cfg, [last], 0, o, v) {
        assert Casts(cfg, logs, |logs| - 1, o, v);
      }
      if q: nat, o: nat :| Casts(cfg, logs, q, o, v) {
        if q < |init| {
          assert Casts(cfg, init, q, o, v);
        } else {
          assert Casts(cfg, [last], 0, o, v);
        }
      }
    }
  }

  /** Every counted vote is a countable record of that voter, with that record's choices. */
  lemma CountedIsCast(cfg: Config, p: Pipe, v: VoterId)
    requires SentOk(cfg, p) && LedgerOk(p) && v in p.ledger
    ensures exists q: nat, o: nat :: Casts(cfg, p.logs, q, o, v) &&
              BallotOf(cfg, p.logs[q][o]).value.options == p.ledger[v]
  {
    var t :| ValidSlot(p, t) && BallotOf(cfg, RecordAt(p, t)) == Some(Vote(v, p.ledger[v]));
    assert Casts(cfg, p.logs, t.part, t.off, v);
  }

  lemma CountedExactlyIfCast(cfg: Config, p: Pipe, v: VoterId)
    requires SentOk(cfg, p) && LedgerOk(p) && AllCounted(cfg, p)
    ensures v in p.ledger <==> v in VotersInLogs(cfg, p.logs)
  {
    VotersInLogsMembers(cfg, p.logs, v);
    if v in p.ledger {
      CountedIsCast(cfg, p, v);
    }
    if q: nat, o: nat :| Casts(cfg, p.logs, q, o, v) {
      assert ValidSlot(p, Slot(q, o)) && RecordAt(p, Slot(q, o)) == p.logs[q][o];
    }
  }

  /** Once every countable record is counted, the counted voters are those with a countable record in the log. */
  lemma CountedAreTheVoters(cfg: Config, s: State)
    requires Reachable(cfg, s) && AllCounted(cfg, s.pipe)
    ensures s.pipe.ledger.Keys == VotersInLogs(cfg, s.pipe.logs)
  {
    ReachableInv(cfg, s);
    forall v ensures v in s.pipe.ledger.Keys <==> v in VotersInLogs(cfg, s.pipe.logs) {
      CountedExactlyIfCast(cfg, s.pipe, v);
    }
  }

  /** The voters of a log are those with a genuine vote in it. */
  lemma VotersAreGenuine(cfg: Config, logs: seq<seq<Record>>, v: VoterId)
    ensures v in VotersInLogs(cfg, logs) <==> exists q: nat, o: nat :: GenuineAt(cfg, logs, q, o, v)
  {
    VotersInLogsMembers(cfg, logs, v);
    if q: nat, o: nat :| Casts(cfg, logs, q, o, v) {
      CountableExactly(cfg, logs[q][o], v);
      assert GenuineAt(cfg, logs, q, o, v);
    }
    if q: nat, o: nat :| GenuineAt(cfg, logs, q, o, v) {
      CountableExactly(cfg, logs[q][o], v);
      assert Casts(cfg, logs, q, o, v);
    }
  }

  /** In every run, every counted vote is a genuine one from the log, with the choices of that record. */
  lemma CountedIsGenuine(cfg: Config, s: State, v: VoterId)
    requires Reachable(cfg, s) && v in s.pipe.ledger
    ensures exists q: nat, o: nat ::
              && GenuineAt(cfg, s.pipe.logs, q, o, v)
              && s.pipe.ledger[v] == set i | i in s.pipe.logs[q][o].choices
  {
    ReachableInv(cfg, s);
    CountedIsCast(cfg, s.pipe, v);
    var q: nat, o: nat :| Casts(cfg, s.pipe.logs, q, o, v) &&
      BallotOf(cfg, s.pipe.logs[q][o]).value.options == s.pipe.ledger[v];
    CountableExactly(cfg, s.pipe.logs[q][o], v);
    assert GenuineAt(cfg, s.pipe.logs, q, o, v);
  }

  /**
   * End to end: in every interleaving, once the poll is closed the stored ballots are the number of distinct
   * voters with a genuine vote for this poll in the log, and option i has one vote for each of them whose first
   * applied choices contain i.
   */
  lemma ClosedResultIsExact(cfg: Config, s: State)
    requires Reachable(cfg, s) && AllHypotheses(cfg) && IsClosed(s)
    ensures s.result.ballots == |VotersInLogs(cfg, s.pipe.logs)|
    ensures forall v :: v in VotersInLogs(cfg, s.pipe.logs) <==> v in s.pipe.ledger
    ensures forall v :: v in s.pipe.ledger <==> exists q: nat, o: nat :: GenuineAt(cfg, s.pipe.logs, q, o, v)
    ensures forall i: uint8 :: Get(s.result, i) ==
              |set v | v in VotersInLogs(cfg, s.pipe.logs) && v in s.pipe.ledger && i in s.pipe.ledger[v]|
    ensures forall i :: i in s.result.votes ==> s.result.votes[i] > 0
    ensures s.now >= cfg.closesAt + cfg.grace
  {
    ReachableInv(cfg, s);
    CountedAreTheVoters(cfg, s);
    ViewCounts(s.pipe.ledger, VotersInLogs(cfg, s.pipe.logs));
    forall v ensures v in s.pipe.ledger <==> exists q: nat, o: nat :: GenuineAt(cfg, s.pipe.logs, q, o, v) {
      VotersAreGenuine(cfg, s.pipe.logs, v);
    }
  }

  lemma ViewCounts(l: Ledger, voters: set<VoterId>)
    requires l.Keys == voters
    ensures ViewOf(l).ballots == |voters|
    ensures forall i: uint8 :: Get(ViewOf(l), i) == |set v | v in voters && v in l && i in l[v]|
    ensures forall i :: i in ViewOf(l).votes ==> ViewOf(l).votes[i] > 0
  {
    forall i: uint8
      ensures Get(ViewOf(l), i) == |set v | v in voters && v in l && i in l[v]|
    {
      ViewAt(l, i);
      assert Choosers(l, i) == set v | v in voters && v in l && i in l[v];
    }
    KeysSize(l);
  }

  /** The stored result is the tally of all voters with a countable record in the log. */
  ghost predicate ResultExact(cfg: Config, s: State) {
    s.pipe.ledger.Keys == VotersInLogs(cfg, s.pipe.logs) && s.result == ViewOf(s.pipe.ledger)
  }

  /** Some voter with a countable record in the log is missing from the counted votes and from the stored ballots. */
  ghost predicate VoteMissed(cfg: Config, s: State) {
    && s.result.ballots < |VotersInLogs(cfg, s.pipe.logs)|
    && exists v :: v in VotersInLogs(cfg, s.pipe.logs) && v !in s.pipe.ledger
  }

  /** Nobody is counted who is not in the log, so a voter of the log who is not counted is missing from the result. */
  lemma UncountedIsMissed(cfg: Config, s: State, t: Slot)
    requires Reachable(cfg, s) && ValidSlot(s.pipe, t) && BallotOf(cfg, RecordAt(s.pipe, t)).Some?
    requires BallotOf(cfg, RecordAt(s.pipe, t)).value.voter !in s.pipe.ledger
    ensures VoteMissed(cfg, s)
  {
    ReachableInv(cfg, s);
    FewerThanVoters(cfg, s.pipe, t);
  }

  lemma FewerThanVoters(cfg: Config, p: Pipe, t: Slot)
    requires SentOk(cfg, p) && LedgerOk(p) && ValidSlot(p, t) && BallotOf(cfg, RecordAt(p, t)).Some?
    requires BallotOf(cfg, RecordAt(p, t)).value.voter !in p.ledger
    ensures |p.ledger| < |VotersInLogs(cfg, p.logs)|
    ensures BallotOf(cfg, RecordAt(p, t)).value.voter in VotersInLogs(cfg, p.logs)
  {
    var v := BallotOf(cfg, RecordAt(p, t)).value.voter;
    CountedWereCast(cfg, p);
    VotersInLogsMembers(cfg, p.logs, v);
    assert Casts(cfg, p.logs, t.part, t.off, v);
    KeysSize(p.ledger);
    SubsetCardinality(p.ledger.Keys + {v}, VotersInLogs(cfg, p.logs));
  }

  lemma CountedWereCast(cfg: Config, p: Pipe)
    requires SentOk(cfg, p) && LedgerOk(p)
    ensures p.ledger.Keys <= VotersInLogs(cfg, p.logs)
  {
    forall v | v in p.ledger ensures v in VotersInLogs(cfg, p.logs) {
      VotersInLogsMembers(cfg, p.logs, v);
      CountedIsCast(cfg, p, v);
    }
  }

  // ---- Final is final ----

  lemma {:induction false} ClosedAlong(cfg: Config, s: State, trace: seq<Action>)
    requires Inv(cfg, s) && IsClosed(s) && Runs(cfg, s, trace)
    ensures After(cfg, s, trace).history == s.history
    ensures AllHypotheses(cfg) ==> After(cfg, s, trace).result == s.result
    decreases |trace|
  {
    if trace != [] {
      StepKeepsInv(cfg, s, trace[0]);
      if AllHypotheses(cfg) {
        ExactStays(cfg, s, trace[0]);
      }
      ClosedStays(cfg, s, trace[0]);
      ClosedAlong(cfg, Next(cfg, s, trace[0]), trace[1..]);
    }
  }

  /** Whatever happens after the close, the row stays as it is, and under the hypotheses so does the stored result. */
  lemma ClosedNeverMoves(cfg: Config, s: State, trace: seq<Action>)
    requires Reachable(cfg, s) && IsClosed(s) && Runs(cfg, s, trace)
    ensures After(cfg, s, trace).history == s.history
    ensures AllHypotheses(cfg) ==> After(cfg, s, trace).result == s.result
  {
    ReachableInv(cfg, s);
    ClosedAlong(cfg, s, trace);
  }

  /** An answer marked final is the exact tally, and every later answer is the same. */
  lemma FinalIsFinal(cfg: Config, s: State, i: nat, j: nat)
    requires Reachable(cfg, s) && AllHypotheses(cfg)
    requires i <= j < |s.answers| && s.answers[i].final
    ensures IsClosed(s)
    ensures s.answers[j].agg == s.answers[i].agg == s.result == ViewOf(s.pipe.ledger)
  {
    ReachableInv(cfg, s);
  }

  // ---- Concurrent snapshotters ----

  /**
   * For any number of interleaved snapshotters the stored result is the join of the reads written so far,
   * never exceeds the true tally, and keeps every share within 0..100 percent.
   */
  lemma StoredIsTheJoin(cfg: Config, s: State)
    requires Reachable(cfg, s)
    ensures s.result == JoinAll(s.written)
    ensures Le(s.result, ViewOf(s.pipe.ledger))
    ensures Balanced(s.result)
    ensures forall i: uint8 :: 0.0 <= Percent(s.result, i) <= 100.0
  {
    ReachableInv(cfg, s);
    forall i: uint8 ensures 0.0 <= Percent(s.result, i) <= 100.0 { PercentInRange(s.result, i); }
  }

  /** The stored result never decreases along a run. */
  lemma StoredNeverDecreases(cfg: Config, s: State, trace: seq<Action>)
    requires Reachable(cfg, s) && Runs(cfg, s, trace)
    ensures Le(s.result, After(cfg, s, trace).result)
  {
    ReachableInv(cfg, s);
    StoredAlong(cfg, s, trace);
  }

  lemma {:induction false} StoredAlong(cfg: Config, s: State, trace: seq<Action>)
    requires Inv(cfg, s) && Runs(cfg, s, trace)
    ensures Le(s.result, After(cfg, s, trace).result)
    decreases |trace|
  {
    if trace != [] {
      var s', a := Next(cfg, s, trace[0]), trace[0];
      StepKeepsInv(cfg, s, a);
      StoredAlong(cfg, s', trace[1..]);
      if a.Snapshot? {
        SnapStepIsLocal(cfg, s, a.id, a.act);
        if a.act.Upsert? {
          UpsertKeepsReads(cfg, s, a.id);
        }
      } else {
        StepIsLocal(cfg, s, a);
      }
    }
  }

  /** A read of all shards, torn by any number of applies, lies between the tally at its start and now. */
  lemma TornReadIsBounded(cfg: Config, s: State, id: nat)
    requires Reachable(cfg, s) && id in s.snaps && s.snaps[id].Reading? && s.snaps[id].unread == {}
    ensures Le(ViewOf(s.snaps[id].from), s.snaps[id].acc)
    ensures Le(s.snaps[id].acc, ViewOf(s.pipe.ledger))
    ensures Balanced(s.snaps[id].acc)
  {
    ReachableInv(cfg, s);
    assert SnapReadOk(cfg, s.pipe.ledger, s.result, s.snaps[id]);
    CompleteReadOk(cfg, s.pipe.ledger, s.snaps[id]);
  }

  // ---- Lifecycle ----

  lemma CopyAtVersion(cfg: Config, h: seq<Row>, r: Row, k: nat)
    requires HistoryOk(cfg, h) && InHistory(h, r) && k < |h| && r.version == k + 1
    ensures r == h[k]
  {
    var i :| 0 <= i < |h| && h[i] == r;
  }

  /**
   * Under no hypothesis at all: one write per version, each an allowed one; a status is never revisited; the
   * version fixes the contents of every copy in circulation; and a closed row is past its own closing time.
   */
  lemma VersionedLifecycle(cfg: Config, s: State, j: nat, k: nat)
    requires Reachable(cfg, s) && j <= k < |s.history|
    ensures s.history[k].version == k + 1
    ensures Rank(s.history[j].status) <= Rank(s.history[k].status)
    ensures j + 1 == k ==> RowStep(cfg, s.history[j], s.history[k])
    ensures forall id :: id in s.snaps && s.snaps[id].row.version == k + 1 ==> s.snaps[id].row == s.history[k]
    ensures forall a :: a in s.admins && s.admins[a].version == k + 1 ==> s.admins[a] == s.history[k]
    ensures forall v :: v in s.viewers && s.viewers[v].version == k + 1 ==> s.viewers[v] == s.history[k]
    ensures s.history[k].status == Closed ==>
              k == |s.history| - 1 && s.history[k].closesAt + cfg.grace <= s.now
  {
    ReachableInv(cfg, s);
    StatusClimbs(cfg, s.history, j, k);
    forall id | id in s.snaps && s.snaps[id].row.version == k + 1 ensures s.snaps[id].row == s.history[k] {
      assert SnapRowOk(s.history, s.snaps[id]);
      CopyAtVersion(cfg, s.history, s.snaps[id].row, k);
    }
    forall a | a in s.admins && s.admins[a].version == k + 1 ensures s.admins[a] == s.history[k] {
      CopyAtVersion(cfg, s.history, s.admins[a], k);
    }
    forall v | v in s.viewers && s.viewers[v].version == k + 1 ensures s.viewers[v] == s.history[k] {
      CopyAtVersion(cfg, s.history, s.viewers[v], k);
    }
    if s.history[k].status == Closed {
      assert InHistory(s.history, s.history[k]);
      ClosedIsLast(cfg, s.history, s.history[k]);
    }
  }

  // ---- The scheduled open ----

  lemma {:induction false} OpeningTimeStays(cfg: Config, h: seq<Row>, k: nat)
    requires HistoryOk(cfg, h) && k < |h|
    ensures h[k].opensAt == cfg.opensAt
  {
    if k > 0 {
      OpeningTimeStays(cfg, h, k - 1);
      assert RowStep(cfg, h[k - 1], h[k - 1 + 1]);
    }
  }

  /** The row is open after the action and was not before. */
  ghost predicate TurnsOpen(cfg: Config, s: State, a: Action) {
    && Enabled(cfg, s, a) && s.history != [] && Current(s.history).status != Open
    && Next(cfg, s, a).history != [] && Current(Next(cfg, s, a).history).status == Open
  }

  /** In every run a poll that is opened is opened by hand, or by a snapshotter once its opening time has come. */
  lemma OpenedOnTime(cfg: Config, s: State, a: Action)
    requires Reachable(cfg, s) && TurnsOpen(cfg, s, a)
    ensures Current(s.history).status == Scheduled
    ensures (a.Administer? && a.deed == OpenByHand) || (a.Snapshot? && a.act == OpenPoll)
    ensures a.Snapshot? ==> cfg.opensAt != 0 && cfg.opensAt <= s.now
  {
    RowsAround(cfg, s, a);
    WhoOpens(cfg, s, a);
    if a.Snapshot? {
      OpenedIsDue(cfg, s, a.id);
    }
    OpensOnlyScheduled(cfg, s.history, Next(cfg, s, a).history);
  }

  lemma RowsAround(cfg: Config, s: State, a: Action)
    requires Reachable(cfg, s) && Enabled(cfg, s, a)
    ensures RowsOk(cfg, s) && TimesOk(cfg, s) && HistoryOk(cfg, Next(cfg, s, a).history)
  {
    ReachableInv(cfg, s);
    StepKeepsRows(cfg, s, a);
  }

  lemma WhoOpens(cfg: Config, s: State, a: Action)
    requires TurnsOpen(cfg, s, a)
    ensures (a.Administer? && a.deed == OpenByHand) || (a.Snapshot? && a.act == OpenPoll)
    ensures Next(cfg, s, a).history == s.history + [Current(Next(cfg, s, a).history)]
  {
    if a.Snapshot? {
      OnlyOpenPollOpens(cfg, s, a.id, a.act);
    }
  }

  lemma OnlyOpenPollOpens(cfg: Config, s: State, id: nat, act: SnapAction)
    requires SnapEnabled(cfg, s, id, act) && Current(s.history).status != Open
    requires var h := SnapNext(cfg, s, id, act).history; h != [] && Current(h).status == Open
    ensures act == OpenPoll
    ensures var h := SnapNext(cfg, s, id, act).history; h == s.history + [Current(h)]
  {
  }

  lemma OpenedIsDue(cfg: Config, s: State, id: nat)
    requires RowsOk(cfg, s) && TimesOk(cfg, s) && SnapEnabled(cfg, s, id, OpenPoll)
    ensures cfg.opensAt != 0 && cfg.opensAt <= s.now
  {
    var x := s.snaps[id];
    assert SnapRowOk(s.history, x) && SnapTimeOk(cfg, s.now, x);
    var k :| 0 <= k < |s.history| && s.history[k] == x.row;
    OpeningTimeStays(cfg, s.history, k);
  }

  lemma OpensOnlyScheduled(cfg: Config, h: seq<Row>, h': seq<Row>)
    requires HistoryOk(cfg, h) && HistoryOk(cfg, h') && h' == h + [Current(h')]
    requires Current(h).status != Open && Current(h').status == Open
    ensures Current(h).status == Scheduled
  {
    assert h'[|h| - 1] == Current(h) && h'[|h|] == Current(h');
    assert RowStep(cfg, h'[|h| - 1], h'[|h| - 1 + 1]);
  }

  // ---- The order of finalization ----

  /** The action begins or ends snapshotter id's handling of the poll. */
  predicate Delimits(a: Action, id: nat) {
    a in {Snapshot(id, List), Snapshot(id, OpenPoll), Snapshot(id, ClosePoll), Snapshot(id, Abort)}
  }

  /** Snapshotter id passed the grace check at i and is still in the same handling of the poll. */
  ghost predicate Passed(trace: seq<Action>, id: nat, i: int) {
    && 0 <= i < |trace| && trace[i] == Snapshot(id, GracePassed)
    && forall m :: i < m < |trace| ==> !Delimits(trace[m], id)
  }

  ghost predicate Drained(trace: seq<Action>, id: nat, i: int, j: int) {
    Passed(trace, id, i) && i < j < |trace| && trace[j] == Snapshot(id, BeginFinal)
  }

  ghost predicate Written(trace: seq<Action>, id: nat, i: int, j: int, k: int) {
    Drained(trace, id, i, j) && j < k < |trace| && trace[k] == Snapshot(id, Upsert)
  }

  /** What the place a snapshotter is at says about the steps it has taken. */
  ghost predicate StageOk(trace: seq<Action>, id: nat, x: Snap) {
    && (x.Lagging? ==> exists i :: Passed(trace, id, i))
    && ((x.Reading? || x.Merging?) && x.final ==> exists i, j :: Drained(trace, id, i, j))
    && (x.Snapshotted? ==> exists i, j, k :: Written(trace, id, i, j, k))
  }

  lemma StageStays(trace: seq<Action>, a: Action, id: nat, x: Snap)
    requires StageOk(trace, id, x) && !Delimits(a, id)
    ensures StageOk(trace + [a], id, x)
  {
    var longer := trace + [a];
    if x.Lagging? {
      var i :| Passed(trace, id, i);
      assert Passed(longer, id, i);
    } else if x.Snapshotted? {
      var i, j, k :| Written(trace, id, i, j, k);
      assert Written(longer, id, i, j, k);
    } else if (x.Reading? || x.Merging?) && x.final {
      var i, j :| Drained(trace, id, i, j);
      assert Drained(longer, id, i, j);
    }
  }

  lemma StageMoves(cfg: Config, s: State, trace: seq<Action>, id: nat, act: SnapAction)
    requires SnapEnabled(cfg, s, id, act) && id in SnapNext(cfg, s, id, act).snaps
    requires id in s.snaps ==> StageOk(trace, id, s.snaps[id])
    ensures StageOk(trace + [Snapshot(id, act)], id, SnapNext(cfg, s, id, act).snaps[id])
  {
    var longer := trace + [Snapshot(id, act)];
    if !act.List? {
      StageStays(trace, Snapshot(id, act), id, s.snaps[id]);
    }
    match act
    case GracePassed => assert Passed(longer, id, |trace|);
    case BeginFinal =>
      var i :| Passed(trace, id, i);
      assert Drained(longer, id, i, |trace|);
    case Upsert =>
      if s.snaps[id].final {
        var i, j :| Drained(trace, id, i, j);
        assert Written(longer, id, i, j, |trace|);
      }
    case _ =>
  }

  lemma {:induction false} StagesOfARun(cfg: Config, start: Time, trace: seq<Action>)
    requires Runs(cfg, Init(cfg, start), trace)
    ensures var s := After(cfg, Init(cfg, start), trace);
            forall id :: id in s.snaps ==> StageOk(trace, id, s.snaps[id])
    decreases |trace|
  {
    if trace != [] {
      var init, a := trace[..|trace| - 1], trace[|trace| - 1];
      assert trace == init + [a];
      LastStep(cfg, Init(cfg, start), trace);
      StagesOfARun(cfg, start, init);
      StagesAfter(cfg, After(cfg, Init(cfg, start), init), init, a);
    }
  }

  lemma StagesAfter(cfg: Config, s: State, trace: seq<Action>, a: Action)
    requires Enabled(cfg, s, a)
    requires forall id :: id in s.snaps ==> StageOk(trace, id, s.snaps[id])
    ensures forall id :: id in Next(cfg, s, a).snaps ==> StageOk(trace + [a], id, Next(cfg, s, a).snaps[id])
  {
    var s' := Next(cfg, s, a);
    forall id | id in s'.snaps ensures StageOk(trace + [a], id, s'.snaps[id]) {
      if a.Snapshot? && a.id == id {
        StageMoves(cfg, s, trace, id, a.act);
      } else {
        if a.Snapshot? { SnapStepIsLocal(cfg, s, a.id, a.act); } else { StepIsLocal(cfg, s, a); }
        StageStays(trace, a, id, s.snaps[id]);
      }
    }
  }

  /** The action at l is the one that closes the poll. */
  ghost predicate ClosesAt(cfg: Config, s: State, trace: seq<Action>, l: nat) {
    && l < |trace| && Runs(cfg, s, trace[..l]) && Runs(cfg, s, trace[..l + 1])
    && !IsClosed(After(cfg, s, trace[..l])) && IsClosed(After(cfg, s, trace[..l + 1]))
  }

  lemma {:induction false} SomeActionCloses(cfg: Config, s: State, trace: seq<Action>)
    requires Runs(cfg, s, trace) && !IsClosed(s) && IsClosed(After(cfg, s, trace))
    ensures exists l: nat :: ClosesAt(cfg, s, trace, l)
    decreases |trace|
  {
    var init := trace[..|trace| - 1];
    LastStep(cfg, s, trace);
    if IsClosed(After(cfg, s, init)) {
      SomeActionCloses(cfg, s, init);
      var l: nat :| ClosesAt(cfg, s, init, l);
      assert trace[..l] == init[..l] && trace[..l + 1] == init[..l + 1];
      assert ClosesAt(cfg, s, trace, l);
    } else {
      assert trace[..|trace|] == trace;
      assert ClosesAt(cfg, s, trace, |trace| - 1);
    }
  }

  /** Snapshotter id acts at l, after grace check, zero-lag read and final write of the same handling of the poll. */
  ghost predicate ClosedInOrder(trace: seq<Action>, id: nat, l: nat) {
    && l < |trace| && trace[l] == Snapshot(id, ClosePoll)
    && exists i, j, k :: Written(trace[..l], id, i, j, k)
  }

  lemma ClosingIsInOrder(cfg: Config, start: Time, trace: seq<Action>, l: nat)
    requires ClosesAt(cfg, Init(cfg, start), trace, l)
    ensures exists id :: ClosedInOrder(trace, id, l)
  {
    var init, upTo := trace[..l], trace[..l + 1];
    var s := After(cfg, Init(cfg, start), init);
    assert upTo[..|upTo| - 1] == init && upTo[|upTo| - 1] == trace[l];
    LastStep(cfg, Init(cfg, start), upTo);
    StagesOfARun(cfg, start, init);
    assert Reachable(cfg, s);
    ReachableInv(cfg, s);
    OnlyClosePollCloses(cfg, s, trace[l]);
    assert StageOk(init, trace[l].id, s.snaps[trace[l].id]);
    assert ClosedInOrder(trace, trace[l].id, l);
  }

  /**
   * In every run that closes the poll some action closes it, and whichever does is the end of one snapshotter's
   * single handling of the poll: grace check, then a zero-lag read, then the final write, then this close.
   */
  lemma FinalizationOrder(cfg: Config, start: Time, trace: seq<Action>)
    requires Runs(cfg, Init(cfg, start), trace) && IsClosed(After(cfg, Init(cfg, start), trace))
    ensures exists l: nat :: ClosesAt(cfg, Init(cfg, start), trace, l)
    ensures forall l: nat :: ClosesAt(cfg, Init(cfg, start), trace, l) ==> exists id :: ClosedInOrder(trace, id, l)
  {
    SomeActionCloses(cfg, Init(cfg, start), trace);
    forall l: nat | ClosesAt(cfg, Init(cfg, start), trace, l) ensures exists id :: ClosedInOrder(trace, id, l) {
      ClosingIsInOrder(cfg, start, trace, l);
    }
  }

  // ---- Schedule independence ----

  /** The same countable records, wherever and in whatever order they lie. */
  ghost predicate SameBallots(c1: Config, s1: State, c2: Config, s2: State) {
    && VotersInLogs(c1, s1.pipe.logs) == VotersInLogs(c2, s2.pipe.logs)
    && SameChoicesIn(c1, s1.pipe.logs, c2, s2.pipe.logs)
  }

  /** A voter's countable records carry the same choices, in both logs and within each. */
  ghost predicate SameChoicesIn(c1: Config, logs1: seq<seq<Record>>, c2: Config, logs2: seq<seq<Record>>) {
    forall q1: nat, o1: nat, q2: nat, o2: nat, v ::
      Casts(c1, logs1, q1, o1, v) && Casts(c2, logs2, q2, o2, v) ==>
      BallotOf(c1, logs1[q1][o1]) == BallotOf(c2, logs2[q2][o2])
  }

  /** The same records for this poll, in whatever places and among whatever records of other polls. */
  ghost predicate SameOwnRecords(cfg: Config, logs1: seq<seq<Record>>, logs2: seq<seq<Record>>) {
    forall rec: Record :: rec.Message? && rec.poll == cfg.poll ==> (Logged(logs1, rec) <==> Logged(logs2, rec))
  }

  ghost predicate Logged(logs: seq<seq<Record>>, rec: Record) {
    exists q: nat, o: nat :: LoggedAt(logs, q, o, rec)
  }

  ghost predicate LoggedAt(logs: seq<seq<Record>>, q: nat, o: nat, rec: Record) {
    q < |logs| && o < |logs[q]| && logs[q][o] == rec
  }

  lemma OwnRecordsGiveVoters(cfg: Config, logs1: seq<seq<Record>>, logs2: seq<seq<Record>>)
    requires SameOwnRecords(cfg, logs1, logs2)
    ensures VotersInLogs(cfg, logs1) <= VotersInLogs(cfg, logs2)
  {
    forall v | v in VotersInLogs(cfg, logs1) ensures v in VotersInLogs(cfg, logs2) {
      VotersAreGenuine(cfg, logs1, v);
      VotersAreGenuine(cfg, logs2, v);
      var q: nat, o: nat :| GenuineAt(cfg, logs1, q, o, v);
      assert LoggedAt(logs1, q, o, logs1[q][o]) && Logged(logs1, logs1[q][o]);
      var p: nat, n: nat :| LoggedAt(logs2, p, n, logs1[q][o]);
      assert GenuineAt(cfg, logs2, p, n, v);
    }
  }

  /** Records of other polls in the shared topic do not touch this poll's result. */
  lemma OnlyOwnRecordsMatter(cfg: Config, s1: State, s2: State)
    requires Reachable(cfg, s1) && Reachable(cfg, s2) && AllHypotheses(cfg) && IsClosed(s1) && IsClosed(s2)
    requires SameOwnRecords(cfg, s1.pipe.logs, s2.pipe.logs)
    ensures s1.result.ballots == s2.result.ballots
    ensures SameChoicesIn(cfg, s1.pipe.logs, cfg, s2.pipe.logs) ==> s1.result == s2.result
  {
    OwnRecordsGiveVoters(cfg, s1.pipe.logs, s2.pipe.logs);
    OwnRecordsGiveVoters(cfg, s2.pipe.logs, s1.pipe.logs);
    BallotsIndependentOfSchedule(cfg, s1, cfg, s2);
    if SameChoicesIn(cfg, s1.pipe.logs, cfg, s2.pipe.logs) {
      ResultIndependentOfSchedule(cfg, s1, cfg, s2);
    }
  }

  /** Equal voters give equal ballots, for any two schedules, shard counts and partitionings. */
  lemma BallotsIndependentOfSchedule(c1: Config, s1: State, c2: Config, s2: State)
    requires Reachable(c1, s1) && AllHypotheses(c1) && IsClosed(s1)
    requires Reachable(c2, s2) && AllHypotheses(c2) && IsClosed(s2)
    requires VotersInLogs(c1, s1.pipe.logs) == VotersInLogs(c2, s2.pipe.logs)
    ensures s1.result.ballots == s2.result.ballots
  {
    ClosedResultIsExact(c1, s1);
    ClosedResultIsExact(c2, s2);
  }

  lemma SameChoices(c1: Config, p1: Pipe, c2: Config, p2: Pipe, v: VoterId)
    requires SentOk(c1, p1) && LedgerOk(p1) && v in p1.ledger
    requires SentOk(c2, p2) && LedgerOk(p2) && v in p2.ledger
    requires SameChoicesIn(c1, p1.logs, c2, p2.logs)
    ensures p1.ledger[v] == p2.ledger[v]
  {
    CountedIsCast(c1, p1, v);
    CountedIsCast(c2, p2, v);
  }

  lemma SameLedger(c1: Config, p1: Pipe, c2: Config, p2: Pipe)
    requires SentOk(c1, p1) && LedgerOk(p1) && SentOk(c2, p2) && LedgerOk(p2)
    requires SameChoicesIn(c1, p1.logs, c2, p2.logs) && p1.ledger.Keys == p2.ledger.Keys
    ensures p1.ledger == p2.ledger
  {
    forall v | v in p1.ledger ensures p1.ledger[v] == p2.ledger[v] {
      SameChoices(c1, p1, c2, p2, v);
    }
  }

  /** The stored result of a closed poll is the tally of a ledger whose voters are those in the log. */
  lemma ClosedLedger(cfg: Config, s: State)
    requires Reachable(cfg, s) && AllHypotheses(cfg) && IsClosed(s)
    ensures ResultExact(cfg, s) && SentOk(cfg, s.pipe) && LedgerOk(s.pipe)
  {
    ReachableInv(cfg, s);
    CountedAreTheVoters(cfg, s);
  }

  /** When each voter's records carry the same choices, the whole result is the same. */
  lemma ResultIndependentOfSchedule(c1: Config, s1: State, c2: Config, s2: State)
    requires Reachable(c1, s1) && AllHypotheses(c1) && IsClosed(s1)
    requires Reachable(c2, s2) && AllHypotheses(c2) && IsClosed(s2)
    requires SameBallots(c1, s1, c2, s2)
    ensures s1.result == s2.result
  {
    ClosedLedger(c1, s1);
    ClosedLedger(c2, s2);
    SameLedger(c1, s1.pipe, c2, s2.pipe);
  }
}
