/** The invariant of the whole pipeline and its preservation by every action. */
module Safety {
  import opened Aggregates
  import opened Ledgers
  import opened Texts
  import opened Domain
  import opened Protocol
  import opened Invariants

  ghost predicate AllHypotheses(cfg: Config) {
    && cfg.hyp.cleanErrors && cfg.hyp.timelyAppends && cfg.hyp.fixedWindow && cfg.hyp.knownLags
    && cfg.hyp.lookupInTime && cfg.hyp.passingErrors
  }

  // ---- Copies of the row ----

  ghost predicate SnapRowOk(h: seq<Row>, x: Snap) {
    InHistory(h, x.row) && (x.Listed? || x.Handling? || x.row.status == Open)
  }

  ghost predicate RowsOk(cfg: Config, s: State) {
    && HistoryOk(cfg, s.history)
    && (forall id :: id in s.snaps ==> SnapRowOk(s.history, s.snaps[id]))
    && (forall a :: a in s.admins ==> InHistory(s.history, s.admins[a]))
    && (forall v :: v in s.viewers ==> InHistory(s.history, s.viewers[v]))
  }

  /** Past the time check, the clock reading is beyond the closing time of the very row that was listed. */
  ghost predicate SnapTimeOk(cfg: Config, now: Time, x: Snap) {
    && (!x.Listed? ==> x.now <= now)
    && (x.Lagging? || x.Snapshotted? || ((x.Reading? || x.Merging?) && x.final) ==>
          x.row.closesAt + cfg.grace <= x.now)
  }

  ghost predicate TimesOk(cfg: Config, s: State) {
    && (forall id :: id in s.snaps ==> SnapTimeOk(cfg, s.now, s.snaps[id]))
    && (IsClosed(s) ==> Current(s.history).closesAt + cfg.grace <= s.now)
  }

  // ---- What snapshotters have read and written ----

  ghost function JoinAll(w: seq<Aggregate>): Aggregate {
    if w == [] then EMPTY else Join(JoinAll(w[..|w| - 1]), w[|w| - 1])
  }

  ghost function PartView(cfg: Config, l: Ledger, shards: set<nat>): Aggregate {
    ViewOf(InShards(l, ShardOf(cfg), shards))
  }

  /** A read in progress lies between the tally when it began and the tally now, shard for shard. */
  ghost predicate TornReadOk(cfg: Config, l: Ledger, x: Snap)
    requires x.Reading?
  {
    var read := AllShardsOf(cfg) - x.unread;
    && x.unread <= AllShardsOf(cfg)
    && Extends(x.from, l)
    && Le(PartView(cfg, x.from, read), x.acc) && Le(x.acc, PartView(cfg, l, read))
    && Balanced(x.acc)
  }

  ghost predicate SnapReadOk(cfg: Config, l: Ledger, result: Aggregate, x: Snap) {
    && (x.Reading? ==> TornReadOk(cfg, l, x))
    && (x.Merging? ==> Balanced(x.latest) && Balanced(x.prev) && Le(x.latest, ViewOf(l)) && Le(x.prev, result))
  }

  ghost predicate ReadsOk(cfg: Config, s: State) {
    && s.result == JoinAll(s.written)
    && Balanced(s.result) && Le(s.result, ViewOf(s.pipe.ledger))
    && forall id :: id in s.snaps ==> SnapReadOk(cfg, s.pipe.ledger, s.result, s.snaps[id])
  }

  // ---- Finalization ----

  ghost predicate AllCounted(cfg: Config, p: Pipe) {
    forall t :: ValidSlot(p, t) && BallotOf(cfg, RecordAt(p, t)).Some? ==>
      BallotOf(cfg, RecordAt(p, t)).value.voter in p.ledger
  }

  /** No countable record is still to come, and every one in the log has been counted. */
  ghost predicate Settled(cfg: Config, s: State) {
    s.now >= cfg.closesAt + cfg.grace && AllCounted(cfg, s.pipe)
  }

  ghost predicate Exact(cfg: Config, s: State) {
    Settled(cfg, s) && s.result == ViewOf(s.pipe.ledger)
  }

  /** What the lag reader has learned: records below a committed offset are done, and none countable is past an end. */
  ghost predicate LagReadOk(cfg: Config, p: Pipe, x: Snap)
    requires x.Lagging?
  {
    && (forall q: nat, o: nat :: q in x.committed && o < x.committed[q] ==> Slot(q, o) in p.done)
    && (forall t :: ValidSlot(p, t) && t.part in x.ends && BallotOf(cfg, RecordAt(p, t)).Some? ==>
          t.off < x.ends[t.part])
  }

  ghost predicate SnapFinalOk(cfg: Config, s: State, x: Snap) {
    match x
    case Reading(_, _, final, _, _, from) => final ==> Settled(cfg, s) && from == s.pipe.ledger
    case Merging(_, _, final, latest, _) => final ==> Settled(cfg, s) && latest == ViewOf(s.pipe.ledger)
    case Lagging(_, _, _, _) => s.now >= cfg.closesAt + cfg.grace && LagReadOk(cfg, s.pipe, x)
    case Snapshotted(_, _) => Exact(cfg, s)
    case _ => true
  }

  ghost predicate AnswersOk(s: State) {
    forall i, j :: 0 <= i <= j < |s.answers| && s.answers[i].final ==>
      IsClosed(s) && s.answers[j].agg == s.result
  }

  ghost predicate FinalOk(cfg: Config, s: State) {
    && (IsClosed(s) ==> Exact(cfg, s))
    && (forall id :: id in s.snaps ==> SnapFinalOk(cfg, s, s.snaps[id]))
    && AnswersOk(s)
  }

  ghost predicate Inv(cfg: Config, s: State) {
    && RowsOk(cfg, s) && TimesOk(cfg, s)
    && TallyOk(cfg, s.pipe, IsClosed(s))
    && ReadsOk(cfg, s)
    && (cfg.hyp.cleanErrors ==> OffsetsOk(s.pipe))
    && (AllHypotheses(cfg) ==> FinalOk(cfg, s))
  }

  lemma InitRowsOk(cfg: Config, start: Time)
    ensures RowsOk(cfg, Init(cfg, start)) && TimesOk(cfg, Init(cfg, start)) && !IsClosed(Init(cfg, start))
  {
    assert Init(cfg, start).history[0].version == 1;
  }

  lemma InitPipeOk(cfg: Config, start: Time)
    ensures var p := Init(cfg, start).pipe; TallyOk(cfg, p, false) && OffsetsOk(p)
  {
  }

  lemma InitReadsOk(cfg: Config, start: Time)
    ensures ReadsOk(cfg, Init(cfg, start)) && FinalOk(cfg, Init(cfg, start))
  {
    InitRowsOk(cfg, start);
    EmptyIsBalanced();
    ViewOfEmpty();
  }

  lemma InitOk(cfg: Config, start: Time)
    ensures Inv(cfg, Init(cfg, start))
  {
    InitRowsOk(cfg, start);
    InitPipeOk(cfg, start);
    InitReadsOk(cfg, start);
  }

  // ---- Rows ----

  lemma RowsStay(cfg: Config, s: State, s': State)
    requires RowsOk(cfg, s) && HistoryOk(cfg, s'.history) && s.history <= s'.history
    requires forall id :: id in s'.snaps ==> id in s.snaps && s'.snaps[id] == s.snaps[id]
    requires forall a :: a in s'.admins ==> a in s.admins && s'.admins[a] == s.admins[a]
    requires forall v :: v in s'.viewers ==> v in s.viewers && s'.viewers[v] == s.viewers[v]
    ensures RowsOk(cfg, s')
  {
    forall id | id in s'.snaps ensures SnapRowOk(s'.history, s'.snaps[id]) {
      assert SnapRowOk(s.history, s.snaps[id]);
      GrownHistory(s.history, s'.history, s.snaps[id].row);
    }
    forall a | a in s'.admins ensures InHistory(s'.history, s'.admins[a]) {
      GrownHistory(s.history, s'.history, s.admins[a]);
    }
    forall v | v in s'.viewers ensures InHistory(s'.history, s'.viewers[v]) {
      GrownHistory(s.history, s'.history, s.viewers[v]);
    }
  }

  lemma CurrentInHistory(h: seq<Row>)
    requires h != []
    ensures InHistory(h, Current(h))
  {
    assert h[|h| - 1] == Current(h);
  }

  lemma SnapStepKeepsRows(cfg: Config, s: State, id: nat, a: SnapAction)
    requires RowsOk(cfg, s) && SnapEnabled(cfg, s, id, a)
    ensures RowsOk(cfg, SnapNext(cfg, s, id, a)) && s.history <= SnapNext(cfg, s, id, a).history
  {
    var s' := SnapNext(cfg, s, id, a);
    if a.List? {
      CurrentInHistory(s.history);
    } else {
      assert SnapRowOk(s.history, s.snaps[id]);
      if a.OpenPoll? {
        CasKeepsHistory(cfg, s.history, s.snaps[id].row, Open);
        RowsStay(cfg, s, s');
      } else if a.ClosePoll? {
        CasKeepsHistory(cfg, s.history, s.snaps[id].row, Closed);
        RowsStay(cfg, s, s');
      }
    }
  }

  lemma AdminStepKeepsRows(cfg: Config, s: State, who: nat, d: AdminAction)
    requires RowsOk(cfg, s) && Enabled(cfg, s, Administer(who, d))
    ensures RowsOk(cfg, Next(cfg, s, Administer(who, d))) && s.history <= Next(cfg, s, Administer(who, d)).history
  {
    var s' := Next(cfg, s, Administer(who, d));
    match d
    case Load => CurrentInHistory(s.history);
    case OpenByHand =>
      assert InHistory(s.history, s.admins[who]);
      CasKeepsHistory(cfg, s.history, s.admins[who], Open);
      RowsStay(cfg, s, s');
    case CloseByHand(at) =>
      CloseByHandKeepsHistory(cfg, s.history, s.admins[who], s.now);
      RowsStay(cfg, s, s');
  }

  /** Every write of the poll row is an allowed transition made on the current version. */
  lemma StepKeepsRows(cfg: Config, s: State, a: Action)
    requires RowsOk(cfg, s) && Enabled(cfg, s, a)
    ensures RowsOk(cfg, Next(cfg, s, a)) && s.history <= Next(cfg, s, a).history
  {
    match a
    case Snapshot(id, act) => SnapStepKeepsRows(cfg, s, id, act);
    case Administer(who, d) => AdminStepKeepsRows(cfg, s, who, d);
    case Look(v, look) => CurrentInHistory(s.history);
    case _ =>
  }

  lemma TimeOnlyPasses(cfg: Config, s: State, a: Action)
    requires Enabled(cfg, s, a)
    ensures s.now <= Next(cfg, s, a).now
  {
  }

  lemma SnapMoveTimes(cfg: Config, s: State, id: nat, a: SnapAction)
    requires SnapEnabled(cfg, s, id, a) && id in SnapNext(cfg, s, id, a).snaps
    requires id in s.snaps ==> SnapTimeOk(cfg, s.now, s.snaps[id])
    ensures SnapTimeOk(cfg, s.now, SnapNext(cfg, s, id, a).snaps[id])
  {
  }

  /** Only a snapshotter that has just written its final snapshot can close the poll. */
  lemma OnlyClosePollCloses(cfg: Config, s: State, a: Action)
    requires RowsOk(cfg, s) && Enabled(cfg, s, a)
    requires !IsClosed(s) && IsClosed(Next(cfg, s, a))
    ensures a.Snapshot? && a.act == ClosePoll && s.snaps[a.id].Snapshotted?
    ensures Current(Next(cfg, s, a).history).closesAt == s.snaps[a.id].row.closesAt
  {
    if a.Snapshot? && a.act == ClosePoll {
      assert SnapRowOk(s.history, s.snaps[a.id]);
      VersionFixesRow(cfg, s.history, s.snaps[a.id].row);
    }
  }

  lemma ClosedStays(cfg: Config, s: State, a: Action)
    requires RowsOk(cfg, s) && Enabled(cfg, s, a)
    ensures IsClosed(s) ==> Next(cfg, s, a).history == s.history
  {
    StepKeepsRows(cfg, s, a);
    var s' := Next(cfg, s, a);
    if IsClosed(s) {
      CurrentInHistory(s.history);
      GrownHistory(s.history, s'.history, Current(s.history));
      ClosedIsLast(cfg, s'.history, Current(s.history));
      assert |s'.history| == Current(s'.history).version;
    }
  }

  lemma StepKeepsTimes(cfg: Config, s: State, a: Action)
    requires RowsOk(cfg, s) && TimesOk(cfg, s) && Enabled(cfg, s, a)
    ensures TimesOk(cfg, Next(cfg, s, a))
  {
    var s' := Next(cfg, s, a);
    TimeOnlyPasses(cfg, s, a);
    ClosedStays(cfg, s, a);
    forall d | d in s'.snaps ensures SnapTimeOk(cfg, s'.now, s'.snaps[d]) {
      if a.Snapshot? {
        SnapStepIsLocal(cfg, s, a.id, a.act);
        if d == a.id { SnapMoveTimes(cfg, s, d, a.act); }
      } else {
        StepIsLocal(cfg, s, a);
      }
    }
    if IsClosed(s') && !IsClosed(s) {
      OnlyClosePollCloses(cfg, s, a);
      assert SnapTimeOk(cfg, s.now, s.snaps[a.id]);
    }
  }

  // ---- Reads ----

  lemma TornReadStays(cfg: Config, l: Ledger, l': Ledger, x: Snap)
    requires x.Reading? && TornReadOk(cfg, l, x) && Extends(l, l')
    ensures TornReadOk(cfg, l', x)
  {
    var read := AllShardsOf(cfg) - x.unread;
    InShardsExtends(l, l', ShardOf(cfg), read);
    ViewMonotone(InShards(l, ShardOf(cfg), read), InShards(l', ShardOf(cfg), read));
  }

  lemma SnapReadStays(cfg: Config, l: Ledger, l': Ledger, r: Aggregate, r': Aggregate, x: Snap)
    requires SnapReadOk(cfg, l, r, x) && Extends(l, l') && Le(r, r')
    ensures SnapReadOk(cfg, l', r', x)
  {
    if x.Reading? {
      TornReadStays(cfg, l, l', x);
    }
    ViewMonotone(l, l');
  }

  lemma ReadsStay(cfg: Config, s: State, s': State)
    requires ReadsOk(cfg, s) && Extends(s.pipe.ledger, s'.pipe.ledger)
    requires s'.result == s.result && s'.written == s.written
    requires forall id :: id in s'.snaps ==> id in s.snaps && s'.snaps[id] == s.snaps[id]
    ensures ReadsOk(cfg, s')
  {
    ViewMonotone(s.pipe.ledger, s'.pipe.ledger);
    forall id | id in s'.snaps ensures SnapReadOk(cfg, s'.pipe.ledger, s'.result, s'.snaps[id]) {
      SnapReadStays(cfg, s.pipe.ledger, s'.pipe.ledger, s.result, s'.result, s.snaps[id]);
    }
  }

  lemma EmptyReadOk(cfg: Config, l: Ledger, x: Snap)
    requires x.Reading? && x.unread == AllShardsOf(cfg) && x.acc == EMPTY && x.from == l
    ensures TornReadOk(cfg, l, x)
  {
    assert AllShardsOf(cfg) - x.unread == {};
    NothingViewed(cfg, l);
    EmptyIsBalanced();
  }

  lemma NothingViewed(cfg: Config, l: Ledger)
    ensures PartView(cfg, l, {}) == EMPTY
  {
    assert InShards(l, ShardOf(cfg), {}) == map[];
    ViewOfEmpty();
  }

  lemma ShardReadOk(cfg: Config, l: Ledger, x: Snap, k: nat)
    requires x.Reading? && TornReadOk(cfg, l, x) && k in x.unread && NonEmptyVotes(l)
    ensures TornReadOk(cfg, l, x.(unread := x.unread - {k}, acc := Sum(x.acc, ShardView(cfg, l, k))))
  {
    var f := ShardOf(cfg);
    var read := AllShardsOf(cfg) - x.unread;
    var read' := AllShardsOf(cfg) - (x.unread - {k});
    assert read' == read + {k};
    ViewOfOneMoreShard(l, f, read, k);
    ViewOfOneMoreShard(x.from, f, read, k);
    InShardsExtends(x.from, l, f, {k});
    var a, b := PartView(cfg, x.from, read), PartView(cfg, x.from, {k});
    var c, d := PartView(cfg, l, read), PartView(cfg, l, {k});
    ViewMonotone(InShards(x.from, f, {k}), InShards(l, f, {k}));
    ViewMonotone(InShards(x.from, f, read), InShards(x.from, f, read));
    ViewMonotone(InShards(l, f, {k}), InShards(l, f, {k}));
    ViewBalanced(InShards(l, f, {k}));
    SumBalanced(x.acc, d);
    SumMonotone(a, b, x.acc, d);
    SumMonotone(x.acc, d, c, d);
  }

  lemma CompleteReadOk(cfg: Config, l: Ledger, x: Snap)
    requires x.Reading? && TornReadOk(cfg, l, x) && x.unread == {}
    ensures Le(ViewOf(x.from), x.acc) && Le(x.acc, ViewOf(l)) && Balanced(x.acc)
  {
    var all := AllShardsOf(cfg);
    assert all - x.unread == all;
    AllShards(x.from, ShardOf(cfg), all);
    AllShards(l, ShardOf(cfg), all);
  }

  /** Writing fresh.MergeMax(prev) has the effect of joining the fresh read alone: prev adds nothing new. */
  lemma UpsertIsJoin(r: Aggregate, latest: Aggregate, prev: Aggregate)
    requires NonNegative(r) && NonNegative(latest) && NonNegative(prev) && Le(prev, r)
    ensures Join(r, Join(latest, prev)) == Join(r, latest)
  {
    var l, m := Join(r, Join(latest, prev)), Join(r, latest);
    assert l.votes.Keys == m.votes.Keys;
    forall i | i in l.votes ensures l.votes[i] == m.votes[i] {
      assert l.votes[i] == MergedAt(r, Join(latest, prev), i);
    }
    assert l.votes == m.votes;
  }

  lemma UpsertKeepsReads(cfg: Config, s: State, id: nat)
    requires ReadsOk(cfg, s) && SnapEnabled(cfg, s, id, Upsert)
    ensures ReadsOk(cfg, SnapNext(cfg, s, id, Upsert))
    ensures Le(s.result, SnapNext(cfg, s, id, Upsert).result)
  {
    var s', x := SnapNext(cfg, s, id, Upsert), s.snaps[id];
    UpsertIsJoin(s.result, x.latest, x.prev);
    JoinIsLeastUpperBound(s.result, x.latest);
    JoinBalanced(s.result, x.latest);
    assert s'.written[..|s'.written| - 1] == s.written;
    forall d | d in s'.snaps ensures SnapReadOk(cfg, s'.pipe.ledger, s'.result, s'.snaps[d]) {
      if d != id {
        SnapReadStays(cfg, s.pipe.ledger, s.pipe.ledger, s.result, s'.result, s.snaps[d]);
      }
    }
  }

  lemma SnapStepIsLocal(cfg: Config, s: State, id: nat, a: SnapAction)
    requires SnapEnabled(cfg, s, id, a)
    ensures var s' := SnapNext(cfg, s, id, a);
            && s'.pipe == s.pipe && s'.now == s.now && s'.answers == s.answers && s'.viewers == s.viewers
            && (!a.Upsert? ==> s'.result == s.result && s'.written == s.written)
            && (!a.OpenPoll? && !a.ClosePoll? ==> s'.history == s.history)
            && (forall d :: d in s'.snaps && d != id ==> d in s.snaps && s'.snaps[d] == s.snaps[d])
  {
  }

  lemma SnapMoveReads(cfg: Config, s: State, id: nat, a: SnapAction)
    requires ReadsOk(cfg, s) && NonEmptyVotes(s.pipe.ledger) && SnapEnabled(cfg, s, id, a) && !a.Upsert?
    requires id in SnapNext(cfg, s, id, a).snaps
    ensures SnapReadOk(cfg, s.pipe.ledger, s.result, SnapNext(cfg, s, id, a).snaps[id])
  {
    var x' := SnapNext(cfg, s, id, a).snaps[id];
    if a.BeginTick? || a.BeginFinal? {
      EmptyReadOk(cfg, s.pipe.ledger, x');
    } else if a.ReadShard? {
      ShardReadOk(cfg, s.pipe.ledger, s.snaps[id], a.shard);
    } else if a.GetPrev? {
      CompleteReadOk(cfg, s.pipe.ledger, s.snaps[id]);
    }
  }

  lemma SnapStepKeepsReads(cfg: Config, s: State, id: nat, a: SnapAction)
    requires ReadsOk(cfg, s) && NonEmptyVotes(s.pipe.ledger) && SnapEnabled(cfg, s, id, a)
    ensures ReadsOk(cfg, SnapNext(cfg, s, id, a))
  {
    var s' := SnapNext(cfg, s, id, a);
    if a.Upsert? {
      UpsertKeepsReads(cfg, s, id);
    } else {
      SnapStepIsLocal(cfg, s, id, a);
      if id in s'.snaps {
        SnapMoveReads(cfg, s, id, a);
      }
    }
  }

  /** Only snapshotters touch snapshotters and results, and only script calls touch the ledger. */
  lemma StepIsLocal(cfg: Config, s: State, a: Action)
    requires Enabled(cfg, s, a) && !a.Snapshot?
    ensures var s' := Next(cfg, s, a);
            && s'.snaps == s.snaps && s'.result == s.result && s'.written == s.written
            && Extends(s.pipe.ledger, s'.pipe.ledger)
  {
    if a.Consume? {
      ConsumerStepIsLocal(cfg, s.pipe, IsClosed(s), a.c, a.step);
    }
  }

  /** Snapshotters never write more than the true tally, and what is stored is the join of what they read. */
  lemma StepKeepsReads(cfg: Config, s: State, a: Action)
    requires ReadsOk(cfg, s) && TallyOk(cfg, s.pipe, IsClosed(s)) && Enabled(cfg, s, a)
    ensures ReadsOk(cfg, Next(cfg, s, a))
  {
    if a.Snapshot? {
      CountedVotesNonEmpty(cfg, s.pipe);
      SnapStepKeepsReads(cfg, s, a.id, a.act);
    } else {
      StepIsLocal(cfg, s, a);
      ReadsStay(cfg, s, Next(cfg, s, a));
    }
  }

  // ---- Counting ----

  lemma StepKeepsTally(cfg: Config, s: State, a: Action)
    requires RowsOk(cfg, s) && TallyOk(cfg, s.pipe, IsClosed(s)) && Enabled(cfg, s, a)
    ensures TallyOk(cfg, Next(cfg, s, a).pipe, IsClosed(Next(cfg, s, a)))
    ensures cfg.hyp.cleanErrors && OffsetsOk(s.pipe) ==> OffsetsOk(Next(cfg, s, a).pipe)
    ensures IsClosed(s) ==> IsClosed(Next(cfg, s, a))
  {
    var s' := Next(cfg, s, a);
    ClosedStays(cfg, s, a);
    match a
    case Append(q, rec) => AppendStep(cfg, s.pipe, IsClosed(s), q, rec);
    case Consume(c, step) => ConsumerStep(cfg, s.pipe, IsClosed(s), c, step);
    case Script(v) => ScriptStep(cfg, s.pipe, IsClosed(s), v);
    case Snapshot(id, act) => SnapStepIsLocal(cfg, s, id, act);
    case _ => assert s'.pipe == s.pipe;
  }

  // ---- Finalization ----

  /** Once settled, the tally no longer moves. */
  lemma SettledStays(cfg: Config, s: State, a: Action)
    requires Settled(cfg, s) && TallyOk(cfg, s.pipe, IsClosed(s)) && Enabled(cfg, s, a) && cfg.hyp.timelyAppends
    ensures Settled(cfg, Next(cfg, s, a))
    ensures Next(cfg, s, a).pipe.ledger == s.pipe.ledger
  {
    var p, p' := s.pipe, Next(cfg, s, a).pipe;
    match a
    case Script(v) =>
      var t :| ValidSlot(p, t) && BallotOf(cfg, RecordAt(p, t)) == Some(v);
      assert v.voter in p.ledger;
    case Append(q, rec) => AppendKeepsCounted(cfg, p, q, rec);
    case Consume(c, step) =>
      ConsumerStepIsLocal(cfg, p, IsClosed(s), c, step);
      SameLogsCounted(cfg, p, p');
    case _ => assert p' == p;
  }

  lemma SameLogsCounted(cfg: Config, p: Pipe, p': Pipe)
    requires AllCounted(cfg, p) && p'.logs == p.logs && p'.ledger == p.ledger
    ensures AllCounted(cfg, p')
  {
    forall t | ValidSlot(p', t) && BallotOf(cfg, RecordAt(p', t)).Some?
      ensures BallotOf(cfg, RecordAt(p', t)).value.voter in p'.ledger
    {
      assert ValidSlot(p, t) && RecordAt(p, t) == RecordAt(p', t);
    }
  }

  lemma AppendKeepsCounted(cfg: Config, p: Pipe, q: nat, rec: Record)
    requires AllCounted(cfg, p) && q < |p.logs| && BallotOf(cfg, rec).None?
    ensures AllCounted(cfg, Appended(p, q, rec))
  {
    var p' := Appended(p, q, rec);
    forall t | ValidSlot(p', t) && BallotOf(cfg, RecordAt(p', t)).Some?
      ensures BallotOf(cfg, RecordAt(p', t)).value.voter in p'.ledger
    {
      if t != Slot(q, |p.logs[q]|) {
        assert ValidSlot(p, t) && RecordAt(p, t) == RecordAt(p', t);
      }
    }
  }

  /** A stored result between the old one and the true tally stays exact. */
  lemma ExactStays(cfg: Config, s: State, a: Action)
    requires Exact(cfg, s) && Inv(cfg, s) && Enabled(cfg, s, a) && cfg.hyp.timelyAppends
    ensures Exact(cfg, Next(cfg, s, a)) && Next(cfg, s, a).result == s.result
  {
    SettledStays(cfg, s, a);
    StepKeepsReads(cfg, s, a);
    if a.Snapshot? {
      SnapStepIsLocal(cfg, s, a.id, a.act);
      if a.act.Upsert? {
        UpsertKeepsReads(cfg, s, a.id);
        LeAntisymmetric(s.result, Next(cfg, s, a).result);
      }
    } else {
      StepIsLocal(cfg, s, a);
    }
  }

  lemma LagReadStays(cfg: Config, s: State, a: Action, x: Snap)
    requires Enabled(cfg, s, a) && cfg.hyp.timelyAppends && s.now >= cfg.closesAt + cfg.grace
    requires x.Lagging? && LagReadOk(cfg, s.pipe, x)
    ensures LagReadOk(cfg, Next(cfg, s, a).pipe, x)
  {
    var p, p' := s.pipe, Next(cfg, s, a).pipe;
    if a.Consume? {
      ConsumerStepIsLocal(cfg, p, IsClosed(s), a.c, a.step);
    }
    forall t | ValidSlot(p', t) && t.part in x.ends && BallotOf(cfg, RecordAt(p', t)).Some?
      ensures t.off < x.ends[t.part]
    {
      assert ValidSlot(p, t) && RecordAt(p, t) == RecordAt(p', t);
    }
  }

  /** What the other snapshotters rely on survives a step. */
  lemma SnapFinalStays(cfg: Config, s: State, a: Action, x: Snap)
    requires Inv(cfg, s) && AllHypotheses(cfg) && Enabled(cfg, s, a)
    requires SnapFinalOk(cfg, s, x)
    ensures SnapFinalOk(cfg, Next(cfg, s, a), x)
  {
    TimeOnlyPasses(cfg, s, a);
    if Settled(cfg, s) {
      SettledStays(cfg, s, a);
    }
    if x.Lagging? {
      LagReadStays(cfg, s, a, x);
    }
    if x.Snapshotted? {
      ExactStays(cfg, s, a);
    }
  }

  lemma {:induction false} NoLagAnywhere(x: Snap, n: nat, q: nat)
    requires x.Lagging? && TotalLag(x, n) == 0 && q < n
    ensures LagAt(x, q) == 0
  {
    if q < n - 1 {
      NoLagAnywhere(x, n - 1, q);
    }
  }

  /** Zero lag, read partition by partition after the grace period, means everything countable is counted. */
  lemma DrainedIsSettled(cfg: Config, s: State, id: nat)
    requires Inv(cfg, s) && AllHypotheses(cfg) && SnapEnabled(cfg, s, id, BeginFinal)
    ensures Settled(cfg, s)
  {
    var p, x := s.pipe, s.snaps[id];
    assert SnapFinalOk(cfg, s, x);
    forall t | ValidSlot(p, t) && BallotOf(cfg, RecordAt(p, t)).Some?
      ensures BallotOf(cfg, RecordAt(p, t)).value.voter in p.ledger
    {
      NoLagAnywhere(x, cfg.partitions, t.part);
      assert t.off < x.ends[t.part] <= x.committed[t.part];
      assert t == Slot(t.part, t.off) && t in p.done;
    }
  }

  lemma GraceIsOver(cfg: Config, s: State, id: nat)
    requires Inv(cfg, s) && AllHypotheses(cfg) && SnapEnabled(cfg, s, id, GracePassed)
    ensures s.now >= cfg.closesAt + cfg.grace
  {
    var x := s.snaps[id];
    assert SnapRowOk(s.history, x) && SnapTimeOk(cfg, s.now, x);
    var k :| 0 <= k < |s.history| && s.history[k] == x.row;
    FixedWindow(cfg, s.history, k);
  }

  /** After the drain, a complete read of the shards is the true tally itself. */
  lemma FinalReadIsExact(cfg: Config, s: State, id: nat)
    requires Inv(cfg, s) && AllHypotheses(cfg) && SnapEnabled(cfg, s, id, GetPrev) && s.snaps[id].final
    ensures Settled(cfg, s) && s.snaps[id].acc == ViewOf(s.pipe.ledger)
  {
    var x := s.snaps[id];
    assert SnapFinalOk(cfg, s, x) && SnapReadOk(cfg, s.pipe.ledger, s.result, x);
    CompleteReadOk(cfg, s.pipe.ledger, x);
    LeAntisymmetric(x.acc, ViewOf(s.pipe.ledger));
  }

  lemma FinalWriteIsExact(cfg: Config, s: State, id: nat)
    requires Inv(cfg, s) && AllHypotheses(cfg) && SnapEnabled(cfg, s, id, Upsert) && s.snaps[id].final
    ensures Exact(cfg, SnapNext(cfg, s, id, Upsert))
  {
    var x := s.snaps[id];
    assert SnapFinalOk(cfg, s, x) && SnapReadOk(cfg, s.pipe.ledger, s.result, x);
    UpsertIsJoin(s.result, x.latest, x.prev);
    JoinAbsorbs(x.latest, s.result);
  }

  lemma SnapMoveFinal(cfg: Config, s: State, id: nat, a: SnapAction)
    requires Inv(cfg, s) && AllHypotheses(cfg) && SnapEnabled(cfg, s, id, a)
    requires id in SnapNext(cfg, s, id, a).snaps
    ensures SnapFinalOk(cfg, SnapNext(cfg, s, id, a), SnapNext(cfg, s, id, a).snaps[id])
  {
    if !a.List? {
      var x := s.snaps[id];
      assert SnapFinalOk(cfg, s, x);
      if a.GetPrev? && x.final {
        FinalReadIsExact(cfg, s, id);
      } else if a.Upsert? && x.final {
        FinalWriteIsExact(cfg, s, id);
      } else if x.Ticked? || x.Lagging? {
        LagMoveFinal(cfg, s, id, a);
      }
    }
  }

  lemma LagMoveFinal(cfg: Config, s: State, id: nat, a: SnapAction)
    requires Inv(cfg, s) && AllHypotheses(cfg) && SnapEnabled(cfg, s, id, a) && !a.List?
    requires s.snaps[id].Ticked? || s.snaps[id].Lagging?
    requires id in SnapNext(cfg, s, id, a).snaps
    ensures SnapFinalOk(cfg, SnapNext(cfg, s, id, a), SnapNext(cfg, s, id, a).snaps[id])
  {
    assert SnapFinalOk(cfg, s, s.snaps[id]);
    if a.GracePassed? {
      GraceIsOver(cfg, s, id);
    } else if a.BeginFinal? {
      DrainedIsSettled(cfg, s, id);
    }
  }

  lemma CloseIsExact(cfg: Config, s: State, a: Action)
    requires Inv(cfg, s) && AllHypotheses(cfg) && Enabled(cfg, s, a) && IsClosed(Next(cfg, s, a))
    ensures Exact(cfg, Next(cfg, s, a))
  {
    if IsClosed(s) {
      ExactStays(cfg, s, a);
    } else {
      OnlyClosePollCloses(cfg, s, a);
      assert SnapFinalOk(cfg, s, s.snaps[a.id]);
      ExactStays(cfg, s, a);
    }
  }

  /** A viewer who saw the row closed reads the result that is stored for good. */
  lemma ReadKeepsAnswers(cfg: Config, s: State, viewer: nat)
    requires RowsOk(cfg, s) && AnswersOk(s) && viewer in s.viewers
    ensures AnswersOk(Next(cfg, s, Look(viewer, ReadResult)))
  {
    var r := s.viewers[viewer];
    assert InHistory(s.history, r);
    if r.status in {Closed, Archived} {
      var k :| 0 <= k < |s.history| && s.history[k] == r;
      ClosedIsLast(cfg, s.history, r);
    }
    var s' := Next(cfg, s, Look(viewer, ReadResult));
    assert s'.history == s.history && s'.result == s.result;
  }

  lemma StepKeepsAnswers(cfg: Config, s: State, a: Action)
    requires Inv(cfg, s) && AllHypotheses(cfg) && Enabled(cfg, s, a)
    ensures AnswersOk(Next(cfg, s, a))
  {
    if a.Look? && a.look.ReadResult? {
      ReadKeepsAnswers(cfg, s, a.viewer);
    } else {
      SameAnswers(cfg, s, a);
      if IsClosed(s) {
        ClosedStays(cfg, s, a);
        ExactStays(cfg, s, a);
      }
    }
  }

  lemma SameAnswers(cfg: Config, s: State, a: Action)
    requires Enabled(cfg, s, a) && !(a.Look? && a.look.ReadResult?)
    ensures Next(cfg, s, a).answers == s.answers
  {
    if a.Snapshot? {
      SnapStepIsLocal(cfg, s, a.id, a.act);
    }
  }

  lemma StepKeepsFinal(cfg: Config, s: State, a: Action)
    requires Inv(cfg, s) && AllHypotheses(cfg) && Enabled(cfg, s, a)
    ensures FinalOk(cfg, Next(cfg, s, a))
  {
    var s' := Next(cfg, s, a);
    if IsClosed(s') {
      CloseIsExact(cfg, s, a);
    }
    StepKeepsAnswers(cfg, s, a);
    forall d | d in s'.snaps ensures SnapFinalOk(cfg, s', s'.snaps[d]) {
      if a.Snapshot? && d == a.id {
        SnapMoveFinal(cfg, s, d, a.act);
      } else {
        if a.Snapshot? { SnapStepIsLocal(cfg, s, a.id, a.act); } else { StepIsLocal(cfg, s, a); }
        SnapFinalStays(cfg, s, a, s.snaps[d]);
      }
    }
  }

  /** The invariant is kept by every action of every actor. */
  lemma StepKeepsInv(cfg: Config, s: State, a: Action)
    requires Inv(cfg, s) && Enabled(cfg, s, a)
    ensures Inv(cfg, Next(cfg, s, a))
  {
    StepKeepsRows(cfg, s, a);
    StepKeepsTimes(cfg, s, a);
    StepKeepsTally(cfg, s, a);
    StepKeepsReads(cfg, s, a);
    if AllHypotheses(cfg) {
      StepKeepsFinal(cfg, s, a);
    }
  }

  /** Every state of every run, whatever the interleaving, satisfies the invariant. */
  lemma {:induction false} RunKeepsInv(cfg: Config, s: State, trace: seq<Action>)
    requires Inv(cfg, s) && Runs(cfg, s, trace)
    ensures Inv(cfg, After(cfg, s, trace))
    decreases |trace|
  {
    if trace != [] {
      StepKeepsInv(cfg, s, trace[0]);
      RunKeepsInv(cfg, Next(cfg, s, trace[0]), trace[1..]);
    }
  }
}
