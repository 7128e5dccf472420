/** The poll table with its versioned writes, and the admin's and viewer's use of it. */
module Polls {
  import opened Aggregates
  import opened Keys
  import opened Domain
  import opened Protocol
  import opened Invariants
  import opened Safety
  import opened Worlds

  // ---- The table ----

  datatype WriteResult = Applied | NoSuchPoll | VersionConflict

  /** versionedOutcome: read off whether the row was updated and whether it exists. */
  function VersionedOutcome(applied: bool, found: bool): WriteResult {
    if applied then Applied else if !found then NoSuchPoll else VersionConflict
  }

  class PollTable {
    var rows: map<PollId, Row>

    constructor ()
      ensures rows == map[]
    {
      rows := map[];
    }

    /** Transition: one statement that updates the row only on the caller's version. */
    method Transition(id: PollId, to: Status, version: nat) returns (r: WriteResult)
      modifies this
      ensures r == NoSuchPoll <==> id !in old(rows)
      ensures r == Applied <==> id in old(rows) && old(rows)[id].version == version
      ensures r == Applied ==> rows == old(rows)[id := Current(CasStatus([old(rows)[id]], to, version))]
      ensures r == Applied ==> rows[id].version == version + 1 && rows[id].status == to
      ensures r != Applied ==> rows == old(rows)
    {
      var found := id in rows;
      var applied := found && rows[id].version == version;
      if applied {
        rows := rows[id := rows[id].(status := to, version := rows[id].version + 1)];
      }
      r := VersionedOutcome(applied, found);
    }

    /** CloseNow: the same compare-and-swap on the closing time; the status stays. */
    method CloseNow(id: PollId, now: Time, version: nat) returns (r: WriteResult)
      modifies this
      ensures r == NoSuchPoll <==> id !in old(rows)
      ensures r == Applied <==> id in old(rows) && old(rows)[id].version == version
      ensures r == Applied ==> rows == old(rows)[id := Current(CasClosesAt([old(rows)[id]], now, version))]
      ensures r == Applied ==> rows[id].version == version + 1 && rows[id].status == old(rows)[id].status
      ensures r != Applied ==> rows == old(rows)
    {
      var found := id in rows;
      var applied := found && rows[id].version == version;
      if applied {
        rows := rows[id := rows[id].(closesAt := now, version := rows[id].version + 1)];
      }
      r := VersionedOutcome(applied, found);
    }

    /** Two writers holding the same version: whoever comes second is told of the conflict. */
    method SecondWriterLoses(id: PollId, first: Status, second: Status, version: nat)
      returns (r1: WriteResult, r2: WriteResult)
      requires id in rows
      modifies this
      ensures !(r1 == Applied && r2 == Applied)
      ensures r1 == Applied ==> r2 == VersionConflict && id in rows && rows[id].status == first
    {
      r1 := Transition(id, first, version);
      r2 := Transition(id, second, version);
    }
  }

  // ---- The service ----

  datatype AdminResult = BadTransition | Conflict | Done

  datatype Outcome = Outcome(final: bool, agg: Aggregate)

  class Service {
    const w: World

    constructor (w: World)
      ensures this.w == w
    {
      this.w := w;
    }

    /** Reads the poll: a copy of the row as it is at that moment. */
    method LoadPoll(who: nat) returns (copy: Row)
      requires w.Valid()
      modifies w
      ensures w.Valid() && old(w.trace) <= w.trace
      ensures who in w.s.admins && w.s.admins[who] == copy && old(w.s.now) <= w.s.now
      ensures w.s.history != [] && Current(w.s.history) == copy
    {
      w.Interfere(OfAdmin(who));
      w.Shape();
      w.Step(OfAdmin(who), Administer(who, Load));
      copy := w.s.admins[who];
    }

    /**
     * Open: load the poll, check the table of transitions, then write on the loaded version. Done means that the row
     * is the copy opened, one version on; a conflict that another write came first; a refusal that nothing was tried.
     */
    method OpenPoll(who: nat) returns (r: AdminResult, ghost copy: Row)
      requires w.Valid()
      modifies w
      ensures w.Valid() && old(w.trace) <= w.trace && w.s.history != []
      ensures r == BadTransition <==> copy.status != Scheduled
      ensures r == BadTransition ==> Current(w.s.history) == copy
      ensures r == Done ==> Current(w.s.history) == copy.(status := Open, version := copy.version + 1)
      ensures r == Conflict ==> InHistory(w.s.history, copy) && Current(w.s.history).version > copy.version
    {
      var loaded := LoadPoll(who);
      copy := loaded;
      if !CanTransitionTo(loaded.status, Open) {
        return BadTransition, copy;
      }
      w.Interfere(OfAdmin(who));
      w.Shape();
      CopyIsPast(w, who);
      r := if Current(w.s.history).version == loaded.version then Done else Conflict;
      w.Step(OfAdmin(who), Administer(who, OpenByHand));
    }

    /**
     * Close: only inside the window of the loaded copy, as of the clock reading at; only the closing time moves, so the
     * snapshotter still finishes the drain.
     */
    method ClosePoll(who: nat) returns (r: AdminResult, ghost copy: Row, ghost at: Time)
      requires w.Valid() && !w.cfg.hyp.fixedWindow
      modifies w
      ensures w.Valid() && old(w.trace) <= w.trace && w.s.history != []
      ensures old(w.s.now) <= at <= w.s.now
      ensures r != BadTransition <==>
                copy.status == Open && copy.closesAt != 0 && copy.opensAt <= at < copy.closesAt
      ensures r == BadTransition ==> Current(w.s.history) == copy && at == w.s.now
      ensures r == Done ==> Current(w.s.history) == copy.(closesAt := w.s.now, version := copy.version + 1)
      ensures r == Conflict ==> InHistory(w.s.history, copy) && Current(w.s.history).version > copy.version
    {
      var loaded := LoadPoll(who);
      copy := loaded;
      var now := w.s.now;
      at := now;
      if loaded.status != Open || !IsOpenAt(WindowOf(loaded), now) {
        return BadTransition, copy, at;
      }
      w.Interfere(OfAdmin(who));
      w.Shape();
      CopyIsPast(w, who);
      r := if Current(w.s.history).version == loaded.version then Done else Conflict;
      w.Step(OfAdmin(who), Administer(who, CloseByHand(now)));
    }

    /** Results: the row first, then the counters. Under the hypotheses a final answer is the exact tally. */
    method GetResults(viewer: nat) returns (o: Outcome)
      requires w.Valid()
      modifies w
      ensures w.Valid() && old(w.trace) <= w.trace
      ensures o.agg == w.s.result
      ensures old(IsClosed(w.s)) ==> o.final
      ensures o.final ==> IsClosed(w.s)
      ensures o.final && AllHypotheses(w.cfg) ==> Exact(w.cfg, w.s)
    {
      w.Interfere(OfViewer(viewer));
      w.Shape();
      w.Step(OfViewer(viewer), Look(viewer, ReadRow));
      w.Interfere(OfViewer(viewer));
      w.Shape();
      o := Outcome(w.s.viewers[viewer].status in {Closed, Archived}, w.s.result);
      FinalCopyIsCurrent(w, viewer);
      w.Step(OfViewer(viewer), Look(viewer, ReadResult));
      if o.final {
        w.ClosedIsExact();
      }
    }
  }

  /** A copy is the row as it was at its version, and the row's version only grows. */
  lemma CopyIsPast(w: World, who: nat)
    requires w.Valid() && who in w.s.admins && w.s.history != []
    ensures var copy, row := w.s.admins[who], Current(w.s.history);
            && InHistory(w.s.history, copy) && copy.version <= row.version
            && (copy.version == row.version ==> copy == row)
  {
    w.IsReachable();
    VersionFixesRow(w.cfg, w.s.history, w.s.admins[who]);
    var k :| 0 <= k < |w.s.history| && w.s.history[k] == w.s.admins[who];
  }

  lemma FinalCopyIsCurrent(w: World, viewer: nat)
    requires w.Valid() && viewer in w.s.viewers
    ensures w.s.viewers[viewer].status in {Closed, Archived} ==> IsClosed(w.s)
  {
    w.IsReachable();
    var r := w.s.viewers[viewer];
    assert InHistory(w.s.history, r);
    if r.status in {Closed, Archived} {
      var k :| 0 <= k < |w.s.history| && w.s.history[k] == r;
      ClosedIsLast(w.cfg, w.s.history, r);
    }
  }
}
