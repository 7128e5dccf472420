/** What every step of the pipeline keeps. */
module Invariants {
  import opened Ledgers
  import opened Texts
  import opened Domain
  import opened Protocol

  // ---- Consumers: nothing is forgotten before it is finished ----

  function Busy(m: Member): set<Slot> {
    m.batch + m.running + m.dropped
  }

  /** A member only holds what the log has. */
  ghost predicate MemberInBounds(p: Pipe, m: Member) {
    && (forall q :: q in m.position ==> q < |p.logs| && m.position[q] <= |p.logs[q]|)
    && (forall s :: s in Busy(m) ==> ValidSlot(p, s))
    && (m.dropped != {} ==> m.cancelled)
  }

  ghost predicate CommittedInBounds(p: Pipe) {
    && |p.committed| == |p.logs|
    && (forall q :: 0 <= q < |p.committed| ==> p.committed[q] <= |p.logs[q]|)
  }

  /** Offsets and records in hand stay within the logs, whatever a fetch reports. */
  ghost predicate InBounds(p: Pipe) {
    && CommittedInBounds(p)
    && (forall c :: c in p.members ==> MemberInBounds(p, p.members[c]))
  }

  ghost predicate MemberOk(p: Pipe, m: Member) {
    && MemberInBounds(p, m)
    && (forall q: nat, o: nat :: q in m.position && o < m.position[q] ==> Slot(q, o) in p.done + Busy(m))
  }

  ghost predicate MembersOk(p: Pipe) {
    forall c :: c in p.members ==> MemberOk(p, p.members[c])
  }

  ghost predicate CommittedOk(p: Pipe) {
    && CommittedInBounds(p)
    && (forall q: nat, o: nat :: q < |p.committed| && o < p.committed[q] ==> Slot(q, o) in p.done)
  }

  /** A worker finishes a countable record only by counting it. */
  ghost predicate NoneGivenUp(cfg: Config) {
    cfg.hyp.lookupInTime && cfg.hyp.passingErrors
  }

  /** The record is one that is refused for good, or its voter is counted, or it came after the close. */
  ghost predicate NothingLost(cfg: Config, p: Pipe, rec: Record, closed: bool) {
    BallotOf(cfg, rec).None? || BallotOf(cfg, rec).value.voter in p.ledger || closed || !NoneGivenUp(cfg)
  }
  ghost predicate DoneOk(cfg: Config, p: Pipe, closed: bool) {
    forall s :: s in p.done ==>
      ValidSlot(p, s) && NothingLost(cfg, p, RecordAt(p, s), closed)
  }

  ghost predicate SentOk(cfg: Config, p: Pipe) {
    forall b :: b in p.sent ==> exists s :: ValidSlot(p, s) && BallotOf(cfg, RecordAt(p, s)) == Some(b)
  }

  ghost predicate LedgerOk(p: Pipe) {
    forall v :: v in p.ledger ==> Vote(v, p.ledger[v]) in p.sent
  }

  ghost predicate OffsetsOk(p: Pipe) {
    MembersOk(p) && CommittedOk(p)
  }

  ghost predicate TallyOk(cfg: Config, p: Pipe, closed: bool) {
    && |p.logs| == cfg.partitions && InBounds(p)
    && DoneOk(cfg, p, closed) && SentOk(cfg, p) && LedgerOk(p)
  }

  /** Logs are only appended to and finished records stay finished. */
  ghost predicate PipeGrows(p: Pipe, p': Pipe) {
    && |p.logs| == |p'.logs|
    && (forall q :: 0 <= q < |p.logs| ==> p.logs[q] <= p'.logs[q])
    && p.done <= p'.done
  }

  lemma SlotStays(p: Pipe, p': Pipe, s: Slot)
    requires PipeGrows(p, p') && ValidSlot(p, s)
    ensures ValidSlot(p', s) && RecordAt(p', s) == RecordAt(p, s)
  {
    assert p.logs[s.part] <= p'.logs[s.part];
  }

  lemma MemberStays(p: Pipe, p': Pipe, m: Member)
    requires PipeGrows(p, p') && MemberOk(p, m)
    ensures MemberOk(p', m)
  {
    forall s | s in Busy(m) ensures ValidSlot(p', s) { SlotStays(p, p', s); }
  }

  lemma BoundsStay(p: Pipe, p': Pipe)
    requires PipeGrows(p, p') && InBounds(p) && p'.committed == p.committed && p'.members == p.members
    ensures InBounds(p')
  {
    forall q | 0 <= q < |p'.committed| ensures p'.committed[q] <= |p'.logs[q]| {
      assert p.logs[q] <= p'.logs[q];
    }
    forall c | c in p'.members ensures MemberInBounds(p', p'.members[c]) {
      var m := p.members[c];
      assert MemberInBounds(p, m);
      forall s | s in Busy(m) ensures ValidSlot(p', s) { SlotStays(p, p', s); }
      forall q | q in m.position ensures q < |p'.logs| && m.position[q] <= |p'.logs[q]| {
        assert p.logs[q] <= p'.logs[q];
      }
    }
  }

  lemma SentStays(cfg: Config, p: Pipe, p': Pipe)
    requires PipeGrows(p, p') && SentOk(cfg, p) && p'.sent == p.sent
    ensures SentOk(cfg, p')
  {
    forall b | b in p'.sent
      ensures exists s :: ValidSlot(p', s) && BallotOf(cfg, RecordAt(p', s)) == Some(b)
    {
      var s :| ValidSlot(p, s) && BallotOf(cfg, RecordAt(p, s)) == Some(b);
      SlotStays(p, p', s);
    }
  }

  lemma DoneStays(cfg: Config, p: Pipe, p': Pipe, closed: bool, closed': bool)
    requires PipeGrows(p, p') && DoneOk(cfg, p, closed) && (closed ==> closed')
    requires p'.done == p.done && p.ledger.Keys <= p'.ledger.Keys
    ensures DoneOk(cfg, p', closed')
  {
    forall s | s in p'.done
      ensures ValidSlot(p', s)
      ensures NothingLost(cfg, p', RecordAt(p', s), closed')
    {
      SlotStays(p, p', s);
    }
  }

  lemma CommittedStays(p: Pipe, p': Pipe)
    requires PipeGrows(p, p') && CommittedOk(p) && p'.committed == p.committed
    ensures CommittedOk(p')
  {
    forall q | 0 <= q < |p'.committed| ensures p'.committed[q] <= |p'.logs[q]| {
      assert p.logs[q] <= p'.logs[q];
    }
  }

  /** Growth of the logs or of the ledger disturbs nothing else. */
  lemma PipeStays(cfg: Config, p: Pipe, p': Pipe, closed: bool, closed': bool)
    requires TallyOk(cfg, p, closed) && PipeGrows(p, p') && (closed ==> closed')
    requires p'.committed == p.committed && p'.members == p.members && p'.done == p.done && p'.sent == p.sent
    requires p.ledger.Keys <= p'.ledger.Keys && LedgerOk(p')
    ensures TallyOk(cfg, p', closed')
    ensures OffsetsOk(p) ==> OffsetsOk(p')
  {
    BoundsStay(p, p');
    SentStays(cfg, p, p');
    DoneStays(cfg, p, p', closed, closed');
    if OffsetsOk(p) {
      forall c | c in p'.members ensures MemberOk(p', p'.members[c]) {
        MemberStays(p, p', p.members[c]);
      }
      CommittedStays(p, p');
    }
  }

  lemma ConsumerStepKeepsMembers(cfg: Config, p: Pipe, closed: bool, c: nat, a: ConsumerAction)
    requires MembersOk(p) && CommittedOk(p) && cfg.hyp.cleanErrors
    requires ConsumerEnabled(cfg, p, closed, c, a)
    ensures MembersOk(ConsumerNext(cfg, p, closed, c, a))
  {
    var p' := ConsumerNext(cfg, p, closed, c, a);
    ConsumerStepIsLocal(cfg, p, closed, c, a);
    forall d | d in p'.members ensures MemberOk(p', p'.members[d]) {
      if d != c {
        MemberStays(p, p', p.members[d]);
      } else if !a.JoinGroup? {
        ConsumerStepKeepsMember(cfg, p, closed, c, a);
      }
    }
  }

  lemma ConsumerStepIsLocal(cfg: Config, p: Pipe, closed: bool, c: nat, a: ConsumerAction)
    requires ConsumerEnabled(cfg, p, closed, c, a)
    ensures var p' := ConsumerNext(cfg, p, closed, c, a);
            && p'.logs == p.logs && p'.ledger == p.ledger && p.done <= p'.done && p.sent <= p'.sent
            && |p'.committed| == |p.committed|
            && (forall d :: d in p'.members && d != c ==> d in p.members && p'.members[d] == p.members[d])
            && (a.Crash? ==> c !in p'.members)
            && (a.JoinGroup? ==> c in p'.members && p'.members[c] == Member(false, map[], {}, {}, {}))
  {
  }

  /** A record may change hands within the member, or finish, as long as it is not lost on the way. */
  lemma HandOver(p: Pipe, p': Pipe, m: Member, m': Member)
    requires MemberOk(p, m) && p'.logs == p.logs && m'.position == m.position
    requires p.done + Busy(m) <= p'.done + Busy(m') && Busy(m') <= Busy(m)
    requires m'.dropped != {} ==> m'.cancelled
    ensures MemberOk(p', m')
  {
  }

  /** A rebalance resumes from the committed offset, below which everything is done. */
  lemma RebalanceKeepsMember(p: Pipe, m: Member, q: nat)
    requires MemberOk(p, m) && CommittedOk(p)
    ensures q < |p.committed| ==> MemberOk(p, m.(position := m.position[q := p.committed[q]]))
    ensures MemberOk(p, m.(position := m.position - {q}))
  {
    if q < |p.committed| {
      assert Busy(m.(position := m.position[q := p.committed[q]])) == Busy(m);
    }
    assert Busy(m.(position := m.position - {q})) == Busy(m);
  }

  lemma ConsumerStepKeepsMember(cfg: Config, p: Pipe, closed: bool, c: nat, a: ConsumerAction)
    requires MembersOk(p) && CommittedOk(p) && cfg.hyp.cleanErrors
    requires ConsumerEnabled(cfg, p, closed, c, a) && !a.Crash? && !a.JoinGroup?
    ensures MemberOk(ConsumerNext(cfg, p, closed, c, a), ConsumerNext(cfg, p, closed, c, a).members[c])
  {
    var p' := ConsumerNext(cfg, p, closed, c, a);
    var m := p.members[c];
    assert MemberOk(p, m);
    if a.Fetch? || a.SkipFetch? {
      FetchKeepsMember(p, m, a.upTo);
      MemberStays(p, p', p'.members[c]);
    } else if a.Assign? || a.Revoke? {
      RebalanceKeepsMember(p, m, a.part);
      MemberStays(p, p', p'.members[c]);
    } else {
      MoveIsHandOver(cfg, p, closed, c, a);
      HandOver(p, p', m, p'.members[c]);
    }
  }

  lemma MoveIsHandOver(cfg: Config, p: Pipe, closed: bool, c: nat, a: ConsumerAction)
    requires ConsumerEnabled(cfg, p, closed, c, a)
    requires c in p.members && MemberInBounds(p, p.members[c])
    requires !(a.JoinGroup? || a.Assign? || a.Revoke? || a.Fetch? || a.SkipFetch? || a.Crash?)
    ensures var p' := ConsumerNext(cfg, p, closed, c, a);
            var m, m' := p.members[c], p'.members[c];
            && p'.logs == p.logs && m'.position == m.position
            && p.done + Busy(m) <= p'.done + Busy(m') && Busy(m') <= Busy(m)
            && (m'.dropped != {} ==> m'.cancelled)
  {
  }

  lemma FetchKeepsMember(p: Pipe, m: Member, upTo: map<nat, nat>)
    requires MemberOk(p, m) && HeadsAdvance(p, m, upTo) && m.batch == {}
    ensures MemberOk(p, m.(batch := Fetched(m.position, upTo), position := m.position + upTo))
    ensures Fetched(m.position, upTo) == {} ==> MemberOk(p, m.(position := m.position + upTo))
  {
    var m' := m.(batch := Fetched(m.position, upTo), position := m.position + upTo);
    forall q: nat, o: nat | q in m'.position && o < m'.position[q]
      ensures Slot(q, o) in p.done + Busy(m')
    {
      if q in upTo && m.position[q] <= o {
        assert Slot(q, o) in m'.batch;
      }
    }
  }

  /** A rebalance or a fetch moves positions within the logs; everything else passes records on. */
  lemma ConsumerStepKeepsBounds(cfg: Config, p: Pipe, closed: bool, c: nat, a: ConsumerAction)
    requires InBounds(p) && ConsumerEnabled(cfg, p, closed, c, a)
    ensures InBounds(ConsumerNext(cfg, p, closed, c, a))
  {
    var p' := ConsumerNext(cfg, p, closed, c, a);
    ConsumerStepIsLocal(cfg, p, closed, c, a);
    forall d | d in p'.members ensures MemberInBounds(p', p'.members[d]) {
      if d in p.members {
        assert MemberInBounds(p, p.members[d]);
        if d == c {
          MemberStaysInBounds(cfg, p, closed, c, a);
        }
      }
    }
    assert c in p.members ==> MemberInBounds(p, p.members[c]);
  }

  lemma FetchInBounds(p: Pipe, m: Member, upTo: map<nat, nat>)
    requires MemberInBounds(p, m) && HeadsAdvance(p, m, upTo)
    ensures MemberInBounds(p, m.(batch := Fetched(m.position, upTo), position := m.position + upTo))
    ensures MemberInBounds(p, m.(position := m.position + upTo))
  {
  }

  lemma RebalanceInBounds(p: Pipe, m: Member, q: nat)
    requires MemberInBounds(p, m) && CommittedInBounds(p)
    ensures q < |p.committed| ==> MemberInBounds(p, m.(position := m.position[q := p.committed[q]]))
    ensures MemberInBounds(p, m.(position := m.position - {q}))
  {
  }

  lemma MemberStaysInBounds(cfg: Config, p: Pipe, closed: bool, c: nat, a: ConsumerAction)
    requires InBounds(p) && ConsumerEnabled(cfg, p, closed, c, a) && !a.JoinGroup? && !a.Crash?
    ensures MemberInBounds(ConsumerNext(cfg, p, closed, c, a), ConsumerNext(cfg, p, closed, c, a).members[c])
  {
    var m, p' := p.members[c], ConsumerNext(cfg, p, closed, c, a);
    assert MemberInBounds(p, m);
    if a.Fetch? || a.SkipFetch? {
      FetchInBounds(p, m, a.upTo);
    } else if a.Assign? || a.Revoke? {
      RebalanceInBounds(p, m, a.part);
    } else {
      MoveIsHandOver(cfg, p, closed, c, a);
    }
    MemberSeesOnlyLogs(p, p', p'.members[c]);
  }

  lemma MemberSeesOnlyLogs(p: Pipe, p': Pipe, m: Member)
    requires p'.logs == p.logs
    ensures MemberInBounds(p', m) <==> MemberInBounds(p, m)
  {
  }

  lemma ConsumerStepKeepsCommitted(cfg: Config, p: Pipe, closed: bool, c: nat, a: ConsumerAction)
    requires MembersOk(p) && CommittedOk(p)
    requires ConsumerEnabled(cfg, p, closed, c, a)
    ensures CommittedOk(ConsumerNext(cfg, p, closed, c, a))
  {
    var p' := ConsumerNext(cfg, p, closed, c, a);
    if a.Commit? {
      // Every worker has returned and nothing was dropped, so what was fetched is done.
      var m := p.members[c];
      assert MemberOk(p, m) && Busy(m) == {};
      forall q: nat, o: nat | q < |p'.committed| && o < p'.committed[q]
        ensures Slot(q, o) in p'.done
      {
        if q in a.parts {
          assert Slot(q, o) in p.done + Busy(m);
        }
      }
    }
  }

  lemma ConsumerStepKeepsSent(cfg: Config, p: Pipe, closed: bool, c: nat, a: ConsumerAction)
    requires SentOk(cfg, p) && LedgerOk(p) && ConsumerEnabled(cfg, p, closed, c, a)
    ensures SentOk(cfg, ConsumerNext(cfg, p, closed, c, a)) && LedgerOk(ConsumerNext(cfg, p, closed, c, a))
  {
    var p' := ConsumerNext(cfg, p, closed, c, a);
    if a.Send? {
      forall b | b in p'.sent
        ensures exists s :: ValidSlot(p', s) && BallotOf(cfg, RecordAt(p', s)) == Some(b)
      {
        var s: Slot;
        if b in p.sent {
          s :| ValidSlot(p, s) && BallotOf(cfg, RecordAt(p, s)) == Some(b);
        } else {
          s := a.slot;
        }
        assert ValidSlot(p', s) && RecordAt(p', s) == RecordAt(p, s);
      }
    } else {
      SentStays(cfg, p, p');
    }
  }

  lemma ConsumerStepKeepsDone(cfg: Config, p: Pipe, closed: bool, c: nat, a: ConsumerAction)
    requires DoneOk(cfg, p, closed) && ConsumerEnabled(cfg, p, closed, c, a)
    ensures DoneOk(cfg, ConsumerNext(cfg, p, closed, c, a), closed)
  {
    var p' := ConsumerNext(cfg, p, closed, c, a);
    forall s | s in p'.done
      ensures ValidSlot(p', s)
      ensures NothingLost(cfg, p', RecordAt(p', s), closed)
    {
      assert RecordAt(p', s) == RecordAt(p, s);
    }
  }

  lemma ConsumerStep(cfg: Config, p: Pipe, closed: bool, c: nat, a: ConsumerAction)
    requires TallyOk(cfg, p, closed) && ConsumerEnabled(cfg, p, closed, c, a)
    ensures TallyOk(cfg, ConsumerNext(cfg, p, closed, c, a), closed)
    ensures cfg.hyp.cleanErrors && OffsetsOk(p) ==> OffsetsOk(ConsumerNext(cfg, p, closed, c, a))
  {
    ConsumerStepIsLocal(cfg, p, closed, c, a);
    ConsumerStepKeepsBounds(cfg, p, closed, c, a);
    ConsumerStepKeepsSent(cfg, p, closed, c, a);
    ConsumerStepKeepsDone(cfg, p, closed, c, a);
    if cfg.hyp.cleanErrors && OffsetsOk(p) {
      ConsumerStepKeepsMembers(cfg, p, closed, c, a);
      ConsumerStepKeepsCommitted(cfg, p, closed, c, a);
    }
  }

  ghost function Scripted(p: Pipe, v: Vote): Pipe {
    p.(ledger := ApplyVote(p.ledger, v))
  }

  lemma ScriptKeepsLedger(p: Pipe, v: Vote)
    requires LedgerOk(p) && v in p.sent
    ensures LedgerOk(Scripted(p, v))
    ensures Extends(p.ledger, Scripted(p, v).ledger)
    ensures p.ledger.Keys <= Scripted(p, v).ledger.Keys
  {
  }

  lemma ScriptStep(cfg: Config, p: Pipe, closed: bool, v: Vote)
    requires TallyOk(cfg, p, closed) && v in p.sent
    ensures TallyOk(cfg, Scripted(p, v), closed)
    ensures OffsetsOk(p) ==> OffsetsOk(Scripted(p, v))
  {
    ScriptKeepsLedger(p, v);
    PipeStays(cfg, p, Scripted(p, v), closed, closed);
  }

  ghost function Appended(p: Pipe, q: nat, rec: Record): Pipe
    requires q < |p.logs|
  {
    p.(logs := p.logs[q := p.logs[q] + [rec]])
  }

  lemma AppendStep(cfg: Config, p: Pipe, closed: bool, q: nat, rec: Record)
    requires TallyOk(cfg, p, closed) && q < |p.logs|
    ensures TallyOk(cfg, Appended(p, q, rec), closed)
    ensures OffsetsOk(p) ==> OffsetsOk(Appended(p, q, rec))
  {
    PipeStays(cfg, p, Appended(p, q, rec), closed, closed);
  }

  /** No counted vote is empty: an empty choice never passes the consumer's checks. */
  lemma CountedVotesNonEmpty(cfg: Config, p: Pipe)
    requires SentOk(cfg, p) && LedgerOk(p)
    ensures NonEmptyVotes(p.ledger)
  {
    forall v | v in p.ledger ensures p.ledger[v] != {} {
      var s :| ValidSlot(p, s) && BallotOf(cfg, RecordAt(p, s)) == Some(Vote(v, p.ledger[v]));
      assert RecordAt(p, s).choices[0] in OptionsOf(RecordAt(p, s).choices);
    }
  }

  // ---- The poll row: one write per version ----

  /** What one successful write may do to the row. */
  ghost predicate RowStep(cfg: Config, a: Row, b: Row) {
    && b.version == a.version + 1
    && b.opensAt == a.opensAt
    && ((a.status == Scheduled && b.status == Open && b.closesAt == a.closesAt)
        || (a.status == Open && b.status == Closed && b.closesAt == a.closesAt)
        || (a.status == Open && b.status == Open && !cfg.hyp.fixedWindow))
  }

  /** The history of the row: versions count the writes, and every write is one of the allowed ones. */
  ghost predicate HistoryOk(cfg: Config, h: seq<Row>) {
    && h != []
    && h[0] == Row(Scheduled, cfg.opensAt, cfg.closesAt, 1)
    && (forall k :: 0 <= k < |h| ==> h[k].version == k + 1)
    && (forall k :: 0 <= k < |h| - 1 ==> RowStep(cfg, h[k], h[k + 1]))
    && (forall k :: 0 <= k < |h| ==> h[k].status in {Scheduled, Open, Closed})
  }

  /** A copy somebody holds is one of the rows the table has had. */
  ghost predicate InHistory(h: seq<Row>, r: Row) {
    exists k :: 0 <= k < |h| && h[k] == r
  }

  /** The version fixes the contents: a copy whose version is current is the current row. */
  lemma VersionFixesRow(cfg: Config, h: seq<Row>, r: Row)
    requires HistoryOk(cfg, h) && InHistory(h, r)
    ensures r.version == Current(h).version <==> r == Current(h)
  {
    var k :| 0 <= k < |h| && h[k] == r;
  }

  lemma CasKeepsHistory(cfg: Config, h: seq<Row>, r: Row, to: Status)
    requires HistoryOk(cfg, h) && InHistory(h, r)
    requires (r.status == Scheduled && to == Open) || (r.status == Open && to == Closed)
    ensures HistoryOk(cfg, CasStatus(h, to, r.version))
    ensures h <= CasStatus(h, to, r.version)
  {
    VersionFixesRow(cfg, h, r);
  }

  lemma CloseByHandKeepsHistory(cfg: Config, h: seq<Row>, r: Row, now: Time)
    requires HistoryOk(cfg, h) && InHistory(h, r) && !cfg.hyp.fixedWindow && r.status == Open
    ensures HistoryOk(cfg, CasClosesAt(h, now, r.version))
    ensures h <= CasClosesAt(h, now, r.version)
  {
    VersionFixesRow(cfg, h, r);
  }

  /** Nothing is ever written after the close. */
  lemma ClosedIsLast(cfg: Config, h: seq<Row>, r: Row)
    requires HistoryOk(cfg, h) && InHistory(h, r) && r.status == Closed
    ensures r == Current(h)
  {
    var k :| 0 <= k < |h| && h[k] == r;
    if k < |h| - 1 {
      ClosedEnds(cfg, h, k);
    }
  }

  lemma ClosedEnds(cfg: Config, h: seq<Row>, k: nat)
    requires HistoryOk(cfg, h) && k < |h| - 1
    ensures h[k].status != Closed
  {
    assert RowStep(cfg, h[k], h[k + 1]);
  }

  lemma GrownHistory(h: seq<Row>, g: seq<Row>, r: Row)
    requires h <= g && InHistory(h, r)
    ensures InHistory(g, r)
  {
    var k :| 0 <= k < |h| && h[k] == r;
    assert g[k] == r;
  }

  /** With a fixed window every copy of the row carries the poll's own times. */
  lemma {:induction false} FixedWindow(cfg: Config, h: seq<Row>, k: nat)
    requires HistoryOk(cfg, h) && cfg.hyp.fixedWindow && k < |h|
    ensures h[k].closesAt == cfg.closesAt && h[k].opensAt == cfg.opensAt
  {
    if k > 0 {
      FixedWindow(cfg, h, k - 1);
      assert RowStep(cfg, h[k - 1], h[k]);
    }
  }

  /** The status never goes back along the history. */
  lemma {:induction false} StatusClimbs(cfg: Config, h: seq<Row>, j: nat, k: nat)
    requires HistoryOk(cfg, h) && j <= k < |h|
    ensures Rank(h[j].status) <= Rank(h[k].status)
    decreases k - j
  {
    if j < k {
      StatusClimbs(cfg, h, j, k - 1);
      assert RowStep(cfg, h[k - 1], h[k]);
    }
  }
}
