/** The snapshotter's own code. Every port call is one action of the pipeline, and any of them may fail. */
module Snapshotters {
  import opened Aggregates
  import opened Ledgers
  import opened Domain
  import opened Protocol
  import opened Invariants
  import opened Safety
  import opened Worlds

  /** How the handling of one poll ended; Erred covers every error the code returns. */
  datatype Verdict =
    | NotListed | Opened | OpenConflict | Idle | TooEarly | Draining | Erred | CloseConflict | Finalized

  function Own(id: nat, act: SnapAction): Action {
    Snapshot(id, act)
  }

  function ReadActions(id: nat, n: nat): seq<Action> {
    if n == 0 then [] else ReadActions(id, n - 1) + [Own(id, ReadShard(n - 1))]
  }

  /** The actions of one TickOnce that runs to its end. */
  function TickActions(id: nat, shards: nat): seq<Action> {
    ReadActions(id, shards) + [Own(id, GetPrev), Own(id, Upsert)]
  }

  /** The lag readings of the first partitions, in order; gaps says for each whether its lag was unknown. */
  function LagActions(id: nat, gaps: seq<bool>): seq<Action> {
    if gaps == [] then []
    else
      var n := |gaps| - 1;
      LagActions(id, gaps[..n]) + PartitionActions(id, n, gaps[n])
  }

  function PartitionActions(id: nat, q: nat, unknown: bool): seq<Action> {
    if unknown then [Own(id, ReadUnknown(q))] else [Own(id, ReadCommitted(q)), Own(id, ReadEnd(q))]
  }

  /** From the passed grace check on: lag of every partition, final snapshot, close. */
  function DrainActions(cfg: Config, id: nat, gaps: seq<bool>): seq<Action> {
    [Own(id, GracePassed)] + LagActions(id, gaps) + [Own(id, BeginFinal)] +
    TickActions(id, cfg.shards) + [Own(id, ClosePoll)]
  }

  /** The drain check of a poll whose records are not all handled yet. */
  function WaitActions(cfg: Config, id: nat, gaps: seq<bool>): seq<Action> {
    [Own(id, GracePassed)] + LagActions(id, gaps) + [Own(id, Abort)]
  }

  ghost predicate GapsOk(cfg: Config, gaps: seq<bool>) {
    |gaps| == cfg.partitions && (cfg.hyp.knownLags ==> forall q :: 0 <= q < |gaps| ==> !gaps[q])
  }

  ghost predicate Waited(cfg: Config, id: nat, before: seq<Action>, after: seq<Action>) {
    exists gaps: seq<bool> :: GapsOk(cfg, gaps) && after == before + WaitActions(cfg, id, gaps)
  }

  ghost predicate WentThrough(cfg: Config, id: nat, before: seq<Action>, after: seq<Action>) {
    exists gaps: seq<bool> :: GapsOk(cfg, gaps) && after == before + DrainActions(cfg, id, gaps)
  }

  /** The poll is scheduled, and its opening time is set and has come. */
  ghost predicate Due(r: Row, now: Time) {
    r.status == Scheduled && r.opensAt != 0 && r.opensAt <= now
  }

  /** The copy a snapshotter listed is the current row, or the row has moved on; its clock reading is in the past. */
  lemma CopyOrConflict(w: World, id: nat)
    requires w.Valid() && id in w.s.snaps && w.s.history != []
    ensures var x, row := w.s.snaps[id], Current(w.s.history);
            && (x.row.version == row.version ==> x.row == row)
            && (!x.Listed? ==> x.now <= w.s.now)
  {
    w.IsReachable();
    assert SnapRowOk(w.s.history, w.s.snaps[id]) && SnapTimeOk(w.cfg, w.s.now, w.s.snaps[id]);
    VersionFixesRow(w.cfg, w.s.history, w.s.snaps[id].row);
  }

  class Snapshotter {
    const id: nat
    const w: World

    constructor (id: nat, w: World)
      ensures this.id == id && this.w == w
    {
      this.id, this.w := id, w;
    }

    ghost function Mine(): seq<Action>
      reads w
    {
      ActionsOf(w.trace, OfSnapshotter(id))
    }

    ghost predicate At(x: Snap)
      reads w
    {
      id in w.s.snaps && w.s.snaps[id] == x
    }

    /** Gives the poll up: an error return or an early return. */
    method GiveUp()
      requires w.Valid() && id in w.s.snaps
      modifies w`s, w`trace
      ensures w.Valid() && old(w.trace) <= w.trace && id !in w.s.snaps
      ensures Mine() == old(Mine()) + [Own(id, Abort)]
    {
      w.Shape();
      w.Step(OfSnapshotter(id), Own(id, Abort));
    }

    // ---- Ports: one atomic action each, after the others had their turn; a failed call gives the poll up ----

    method Call(ghost x: Snap) returns (ok: bool)
      requires w.Valid() && At(x)
      modifies w
      ensures w.Valid() && old(w.trace) <= w.trace
      ensures ok ==> At(x) && Mine() == old(Mine())
      ensures ok ==> w.s.history != [] && |w.s.pipe.logs| == |w.s.pipe.committed| == w.cfg.partitions
      ensures !ok ==> id !in w.s.snaps
      ensures w.failures == old(w.failures) + (if ok then 0 else 1)
    {
      w.Interfere(OfSnapshotter(id));
      w.Shape();
      var failed := w.Fails();
      ok := !failed;
      if failed {
        GiveUp();
      }
    }

    /** HGETALL of one shard. */
    method ReadOne(shard: nat, ghost x: Snap) returns (ok: bool, view: Aggregate)
      requires w.Valid() && At(x) && x.Reading? && shard in x.unread
      modifies w
      ensures w.Valid() && old(w.trace) <= w.trace
      ensures ok ==> At(x.(unread := x.unread - {shard}, acc := Sum(x.acc, view)))
      ensures ok ==> Mine() == old(Mine()) + [Own(id, ReadShard(shard))]
      ensures !ok ==> id !in w.s.snaps
      ensures w.failures == old(w.failures) + (if ok then 0 else 1)
    {
      view := EMPTY;
      ok := Call(x);
      if ok {
        view := ShardView(w.cfg, w.s.pipe.ledger, shard);
        w.Step(OfSnapshotter(id), Own(id, ReadShard(shard)));
      }
    }

    /** results.Get. */
    method ReadPrevious(ghost x: Snap) returns (ok: bool, prev: Aggregate)
      requires w.Valid() && At(x) && x.Reading? && x.unread == {}
      modifies w
      ensures w.Valid() && old(w.trace) <= w.trace
      ensures ok ==> At(Merging(x.row, x.now, x.final, x.acc, prev))
      ensures ok ==> Mine() == old(Mine()) + [Own(id, GetPrev)]
      ensures !ok ==> id !in w.s.snaps
      ensures w.failures == old(w.failures) + (if ok then 0 else 1)
    {
      prev := EMPTY;
      ok := Call(x);
      if ok {
        prev := w.s.result;
        w.Step(OfSnapshotter(id), Own(id, GetPrev));
      }
    }

    /** results.Upsert: the caller hands over the merged aggregate. */
    method WriteSnapshot(merged: Aggregate, ghost x: Snap) returns (ok: bool)
      requires w.Valid() && At(x) && x.Merging? && merged == Join(x.latest, x.prev)
      modifies w
      ensures w.Valid() && old(w.trace) <= w.trace
      ensures ok ==> At(if x.final then Snapshotted(x.row, x.now) else Ticked(x.row, x.now))
      ensures ok ==> Mine() == old(Mine()) + [Own(id, Upsert)]
      ensures !ok ==> id !in w.s.snaps
      ensures w.failures == old(w.failures) + (if ok then 0 else 1)
    {
      ok := Call(x);
      if ok {
        w.Step(OfSnapshotter(id), Own(id, Upsert));
      }
    }

    method FetchCommitted(q: nat, ghost x: Snap) returns (ok: bool, committed: nat)
      requires w.Valid() && At(x) && x.Lagging? && q < w.cfg.partitions && q !in x.committed
      modifies w
      ensures w.Valid() && old(w.trace) <= w.trace
      ensures ok ==> At(x.(committed := x.committed[q := committed]))
      ensures ok ==> Mine() == old(Mine()) + [Own(id, ReadCommitted(q))]
      ensures !ok ==> id !in w.s.snaps
      ensures w.failures == old(w.failures) + (if ok then 0 else 1)
    {
      committed := 0;
      ok := Call(x);
      if ok {
        committed := w.s.pipe.committed[q];
        w.Step(OfSnapshotter(id), Own(id, ReadCommitted(q)));
      }
    }

    method FetchEnd(q: nat, ghost x: Snap) returns (ok: bool, end: nat)
      requires w.Valid() && At(x) && x.Lagging? && q < w.cfg.partitions && q !in x.ends
      modifies w
      ensures w.Valid() && old(w.trace) <= w.trace
      ensures ok ==> At(x.(ends := x.ends[q := end]))
      ensures ok ==> Mine() == old(Mine()) + [Own(id, ReadEnd(q))]
      ensures !ok ==> id !in w.s.snaps
      ensures w.failures == old(w.failures) + (if ok then 0 else 1)
    {
      end := 0;
      ok := Call(x);
      if ok {
        end := |w.s.pipe.logs[q]|;
        w.Step(OfSnapshotter(id), Own(id, ReadEnd(q)));
      }
    }

    /** polls.Transition to closed on the listed version; before is the row's history at that moment. */
    method CloseRow(ghost x: Snap) returns (v: Verdict, ghost before: seq<Row>)
      requires w.Valid() && At(x) && x.Snapshotted?
      modifies w
      ensures w.Valid() && old(w.trace) <= w.trace && id !in w.s.snaps
      ensures v in {Erred, CloseConflict, Finalized}
      ensures v != Erred ==> before != [] && w.s.history == CasStatus(before, Closed, x.row.version)
      ensures v != Erred ==> (v == Finalized <==> Current(before).version == x.row.version)
      ensures v == Finalized ==> Current(w.s.history) == x.row.(status := Closed, version := x.row.version + 1)
      ensures v != Erred ==> Mine() == old(Mine()) + [Own(id, ClosePoll)]
      ensures w.failures == old(w.failures) + (if v == Erred then 1 else 0)
    {
      v, before := Erred, [];
      var ok := Call(x);
      if ok {
        before := w.s.history;
        v := if Current(w.s.history).version == w.s.snaps[id].row.version then Finalized else CloseConflict;
        CopyOrConflict(w, id);
        w.Step(OfSnapshotter(id), Own(id, ClosePoll));
      }
    }

    /** polls.Transition to open on the listed version. */
    method OpenRow(ghost x: Snap) returns (v: Verdict, ghost before: seq<Row>)
      requires w.Valid() && At(x) && x.Handling? && ShouldOpenAt(WindowOf(x.row), x.now)
      modifies w
      ensures w.Valid() && old(w.trace) <= w.trace && id !in w.s.snaps
      ensures v in {Erred, OpenConflict, Opened} && Due(x.row, x.now)
      ensures v == Opened ==> x.now <= w.s.now
      ensures v == Opened ==>
                w.s.history != [] && Current(w.s.history) == x.row.(status := Open, version := x.row.version + 1)
      ensures v != Erred ==> before != [] && w.s.history == CasStatus(before, Open, x.row.version)
      ensures v != Erred ==> (v == Opened <==> Current(before).version == x.row.version)
      ensures v != Erred ==> Mine() == old(Mine()) + [Own(id, OpenPoll)]
      ensures w.failures == old(w.failures) + (if v == Erred then 1 else 0)
    {
      v, before := Erred, [];
      var ok := Call(x);
      if ok {
        before := w.s.history;
        v := if Current(w.s.history).version == w.s.snaps[id].row.version then Opened else OpenConflict;
        CopyOrConflict(w, id);
        w.Step(OfSnapshotter(id), Own(id, OpenPoll));
      }
    }

    /** Starts the reads of a TickOnce, the ordinary one or the final one. */
    method Begin(act: SnapAction, ghost x: Snap)
      requires w.Valid() && At(x)
      requires (act == BeginTick && x.Handling? && !ShouldOpenAt(WindowOf(x.row), x.now) && x.row.status == Open)
            || (act == BeginFinal && x.Lagging? && TotalLag(x, w.cfg.partitions) == 0 &&
                forall q: nat :: q < w.cfg.partitions ==> q in x.committed && q in x.ends)
      modifies w`s, w`trace
      ensures w.Valid() && old(w.trace) <= w.trace
      ensures At(Reading(x.row, x.now, act == BeginFinal, AllShardsOf(w.cfg), EMPTY, old(w.s.pipe.ledger)))
      ensures w.s.pipe == old(w.s.pipe)
      ensures Mine() == old(Mine()) + [Own(id, act)]
    {
      w.Shape();
      w.Step(OfSnapshotter(id), Own(id, act));
    }

    method StartLags(ghost x: Snap)
      requires w.Valid() && At(x) && x.Ticked? && x.now >= x.row.closesAt + w.cfg.grace
      modifies w`s, w`trace
      ensures w.Valid() && old(w.trace) <= w.trace
      ensures At(Lagging(x.row, x.now, map[], map[]))
      ensures Mine() == old(Mine()) + [Own(id, GracePassed)]
    {
      w.Shape();
      w.Step(OfSnapshotter(id), Own(id, GracePassed));
    }

    /** polls.ListActive: a copy of the row, if it is scheduled or open. */
    method ListActive() returns (v: Verdict)
      requires w.Valid() && id !in w.s.snaps
      modifies w
      ensures w.Valid() && old(w.trace) <= w.trace
      ensures v in {Erred, NotListed, Idle}
      ensures v == Idle ==> id in w.s.snaps && w.s.snaps[id].Listed? && Mine() == old(Mine()) + [Own(id, List)]
      ensures v != Idle ==> id !in w.s.snaps
      ensures v == NotListed ==> IsClosed(w.s) && Mine() == old(Mine())
      ensures w.failures == old(w.failures) + (if v == Erred then 1 else 0)
    {
      w.Interfere(OfSnapshotter(id));
      w.Shape();
      var failed := w.Fails();
      if failed { return Erred; }
      if Current(w.s.history).status !in {Scheduled, Open} { return NotListed; }
      w.Step(OfSnapshotter(id), Own(id, List));
      v := Idle;
    }

    method ReadClock(ghost x: Snap) returns (ok: bool)
      requires w.Valid() && At(x) && x.Listed?
      modifies w
      ensures w.Valid() && old(w.trace) <= w.trace
      ensures ok ==> At(Handling(x.row, w.s.now)) && Mine() == old(Mine()) + [Own(id, Clock)]
      ensures !ok ==> id !in w.s.snaps
      ensures w.failures == old(w.failures) + (if ok then 0 else 1)
    {
      ok := Call(x);
      if ok {
        w.Step(OfSnapshotter(id), Own(id, Clock));
      }
    }

    /** ListActive and, for the listed poll, the clock reading at the top of handle. */
    method ListPoll() returns (v: Verdict)
      requires w.Valid() && id !in w.s.snaps
      modifies w
      ensures w.Valid() && old(w.trace) <= w.trace
      ensures v in {Erred, NotListed, Idle}
      ensures v == Idle ==> id in w.s.snaps && w.s.snaps[id].Handling?
      ensures v == Idle ==> Mine() == old(Mine()) + [Own(id, List), Own(id, Clock)]
      ensures v != Idle ==> id !in w.s.snaps
      ensures v == NotListed ==> IsClosed(w.s) && Mine() == old(Mine())
      ensures w.failures == old(w.failures) + (if v == Erred then 1 else 0)
    {
      v := ListActive();
      if v == Idle {
        var ok := ReadClock(w.s.snaps[id]);
        if !ok {
          v := Erred;
        }
      }
    }

    // ---- The code ----

    /** tally.Aggregate: every shard read and added up. */
    method ReadShards(ghost x: Snap) returns (ok: bool, latest: Aggregate)
      requires w.Valid() && At(x) && x.Reading? && x.unread == AllShardsOf(w.cfg) && x.acc == EMPTY
      modifies w
      ensures w.Valid() && old(w.trace) <= w.trace
      ensures ok ==> At(x.(unread := {}, acc := latest))
      ensures ok ==> Mine() == old(Mine()) + ReadActions(id, w.cfg.shards)
      ensures !ok ==> id !in w.s.snaps
      ensures w.failures == old(w.failures) + (if ok then 0 else 1)
    {
      ok, latest := true, EMPTY;
      ghost var y := x;
      for shard := 0 to w.cfg.shards
        invariant w.Valid() && old(w.trace) <= w.trace && w.failures == old(w.failures) && ok
        invariant y.Reading? && y == x.(unread := y.unread, acc := latest)
        invariant forall k: nat :: k in y.unread <==> shard <= k < w.cfg.shards
        invariant At(y)
        invariant Mine() == old(Mine()) + ReadActions(id, shard)
      {
        var view;
        ok, view := ReadOne(shard, y);
        if !ok { return; }
        latest := Sum(latest, view);
        y := y.(unread := y.unread - {shard}, acc := latest);
      }
      assert y.unread == {};
    }

    /** TickOnce: aggregate the shards, read the previous snapshot, merge, write. */
    method TickOnce(ghost x: Snap) returns (ok: bool)
      requires w.Valid() && At(x) && x.Reading? && x.unread == AllShardsOf(w.cfg) && x.acc == EMPTY
      modifies w
      ensures w.Valid() && old(w.trace) <= w.trace
      ensures ok ==> At(if x.final then Snapshotted(x.row, x.now) else Ticked(x.row, x.now))
      ensures ok ==> Mine() == old(Mine()) + TickActions(id, w.cfg.shards)
      ensures !ok ==> id !in w.s.snaps
      ensures w.failures == old(w.failures) + (if ok then 0 else 1)
    {
      var latest, prev;
      ok, latest := ReadShards(x);
      if !ok { return; }
      ok, prev := ReadPrevious(x.(unread := {}, acc := latest));
      if !ok { return; }
      var merged := MergeMax(latest, prev);
      ok := WriteSnapshot(merged, Merging(x.row, x.now, x.final, latest, prev));
    }

    /** The lag of one partition as it is reported: committed offset, then end, or negative when it is not known. */
    method ReadLag(q: nat, ghost x: Snap) returns (ok: bool, lag: int, ghost y: Snap, ghost unknown: bool)
      requires w.Valid() && At(x) && x.Lagging? && q < w.cfg.partitions && q !in x.committed && q !in x.ends
      modifies w
      ensures w.Valid() && old(w.trace) <= w.trace
      ensures ok ==> y.Lagging? && y.committed.Keys == x.committed.Keys + {q} && y.ends.Keys == x.ends.Keys + {q}
      ensures ok ==> At(y) && y.row == x.row && y.now == x.now && (w.cfg.hyp.knownLags ==> !unknown)
      ensures ok ==> LagAt(y, q) == (if lag > 0 then lag else 0) && SameBut(x, y, q)
      ensures ok && unknown ==> lag < 0
      ensures ok ==> Mine() == old(Mine()) + PartitionActions(id, q, unknown)
      ensures !ok ==> id !in w.s.snaps
      ensures w.failures == old(w.failures) + (if ok then 0 else 1)
    {
      var gap := w.LagUnknown();
      unknown := gap;
      if gap {
        lag := -1;
        ok, y := ReadNoLag(q, x);
      } else {
        ok, lag, y := ReadOffsets(q, x);
      }
    }

    method ReadOffsets(q: nat, ghost x: Snap) returns (ok: bool, lag: int, ghost y: Snap)
      requires w.Valid() && At(x) && x.Lagging? && q < w.cfg.partitions && q !in x.committed && q !in x.ends
      modifies w
      ensures w.Valid() && old(w.trace) <= w.trace
      ensures ok ==> y.Lagging? && y.committed.Keys == x.committed.Keys + {q} && y.ends.Keys == x.ends.Keys + {q}
      ensures ok ==> At(y) && y.row == x.row && y.now == x.now
      ensures ok ==> LagAt(y, q) == (if lag > 0 then lag else 0) && SameBut(x, y, q)
      ensures ok ==> Mine() == old(Mine()) + [Own(id, ReadCommitted(q)), Own(id, ReadEnd(q))]
      ensures !ok ==> id !in w.s.snaps
      ensures w.failures == old(w.failures) + (if ok then 0 else 1)
    {
      lag, y := 0, x;
      var committed, end;
      ok, committed := FetchCommitted(q, x);
      if !ok { return; }
      y := x.(committed := x.committed[q := committed]);
      ok, end := FetchEnd(q, y);
      if !ok { return; }
      y := y.(ends := y.ends[q := end]);
      lag := end as int - committed as int;
    }

    method ReadNoLag(q: nat, ghost x: Snap) returns (ok: bool, ghost y: Snap)
      requires w.Valid() && At(x) && x.Lagging? && q !in x.committed && q !in x.ends && !w.cfg.hyp.knownLags
      modifies w
      ensures w.Valid() && old(w.trace) <= w.trace
      ensures ok ==> y == x.(committed := x.committed[q := 0], ends := x.ends[q := 0]) && At(y)
      ensures ok ==> Mine() == old(Mine()) + [Own(id, ReadUnknown(q))]
      ensures !ok ==> id !in w.s.snaps
      ensures w.failures == old(w.failures) + (if ok then 0 else 1)
    {
      y := x.(committed := x.committed[q := 0], ends := x.ends[q := 0]);
      ok := Call(x);
      if ok {
        w.Step(OfSnapshotter(id), Own(id, ReadUnknown(q)));
      }
    }

    /** kafkaLag.Lag as drained uses it: the positive lags added up, one by one; unknown ones are skipped. */
    method ReadLags(ghost x0: Snap) returns (ok: bool, total: int, ghost x: Snap, ghost gaps: seq<bool>)
      requires w.Valid() && At(x0) && x0.Lagging? && x0.committed == map[] && x0.ends == map[]
      modifies w
      ensures w.Valid() && old(w.trace) <= w.trace
      ensures ok ==> At(x) && x.Lagging? && x.row == x0.row && x.now == x0.now
      ensures ok ==> forall q: nat :: q < w.cfg.partitions ==> q in x.committed && q in x.ends
      ensures ok ==> total == TotalLag(x, w.cfg.partitions) && GapsOk(w.cfg, gaps)
      ensures ok ==> Mine() == old(Mine()) + LagActions(id, gaps)
      ensures !ok ==> id !in w.s.snaps
      ensures w.failures == old(w.failures) + (if ok then 0 else 1)
    {
      ok, total, x, gaps := true, 0, x0, [];
      for q := 0 to w.cfg.partitions
        invariant w.Valid() && old(w.trace) <= w.trace && w.failures == old(w.failures)
        invariant ok && At(x) && LagsRead(w.cfg, x0, x, q, total, gaps)
        invariant Mine() == old(Mine()) + LagActions(id, gaps)
      {
        var lag;
        ghost var y, unknown;
        ok, lag, y, unknown := ReadLag(q, x);
        if !ok { return; }
        LagsReadOneMore(w.cfg, x0, x, y, q, total, lag, gaps, unknown);
        if lag > 0 {
          total := total + lag;
        }
        OneMoreLag(id, gaps, unknown, old(Mine()));
        x, gaps := y, gaps + [unknown];
      }
    }

    /** Finalize: a last snapshot, then close the row on the listed version. */
    method Finalize(ghost x: Snap) returns (v: Verdict, ghost before: seq<Row>)
      requires w.Valid() && At(x) && x.Reading? && x.final && x.unread == AllShardsOf(w.cfg) && x.acc == EMPTY
      modifies w
      ensures w.Valid() && old(w.trace) <= w.trace && id !in w.s.snaps
      ensures v in {Erred, CloseConflict, Finalized}
      ensures v != Erred ==> before != [] && w.s.history == CasStatus(before, Closed, x.row.version)
      ensures v != Erred ==> (v == Finalized <==> Current(before).version == x.row.version)
      ensures v != Erred ==> Mine() == old(Mine()) + TickActions(id, w.cfg.shards) + [Own(id, ClosePoll)]
      ensures w.failures == old(w.failures) + (if v == Erred then 1 else 0)
    {
      v, before := Erred, [];
      var ok := TickOnce(x);
      if ok {
        v, before := CloseRow(Snapshotted(x.row, x.now));
      }
    }

    /** No lag in total: Finalize. */
    method FinalizeDrained(ghost x: Snap) returns (v: Verdict, ghost before: seq<Row>)
      requires w.Valid() && At(x) && x.Lagging? && TotalLag(x, w.cfg.partitions) == 0
      requires forall q: nat :: q < w.cfg.partitions ==> q in x.committed && q in x.ends
      modifies w
      ensures w.Valid() && old(w.trace) <= w.trace && id !in w.s.snaps
      ensures v in {Erred, CloseConflict, Finalized}
      ensures v != Erred ==> before != [] && w.s.history == CasStatus(before, Closed, x.row.version)
      ensures v != Erred ==> (v == Finalized <==> Current(before).version == x.row.version)
      ensures v != Erred ==>
                Mine() == old(Mine()) + [Own(id, BeginFinal)] + TickActions(id, w.cfg.shards) + [Own(id, ClosePoll)]
      ensures w.failures == old(w.failures) + (if v == Erred then 1 else 0)
    {
      Begin(BeginFinal, x);
      v, before := Finalize(w.s.snaps[id]);
    }

    /** The drain check and what follows it. Draining means that the lags it read, seen, were not all zero. */
    method DrainAndFinalize(ghost x: Snap) returns (v: Verdict, ghost seen: Snap, ghost before: seq<Row>)
      requires w.Valid() && At(x) && x.Ticked? && x.now >= x.row.closesAt + w.cfg.grace
      modifies w
      ensures w.Valid() && old(w.trace) <= w.trace && id !in w.s.snaps
      ensures v in {Erred, Draining, CloseConflict, Finalized}
      ensures v == Draining ==> seen.Lagging? && TotalLag(seen, w.cfg.partitions) > 0
      ensures v == Draining ==> Waited(w.cfg, id, old(Mine()), Mine())
      ensures v in {CloseConflict, Finalized} ==>
                before != [] && w.s.history == CasStatus(before, Closed, x.row.version)
      ensures v in {CloseConflict, Finalized} ==> (v == Finalized <==> Current(before).version == x.row.version)
      ensures v in {CloseConflict, Finalized} ==> WentThrough(w.cfg, id, old(Mine()), Mine())
      ensures w.failures == old(w.failures) + (if v == Erred then 1 else 0)
    {
      v, seen, before := Erred, x, [];
      StartLags(x);
      var ok, lag;
      ghost var gaps;
      ok, lag, seen, gaps := ReadLags(Lagging(x.row, x.now, map[], map[]));
      if !ok { return; }
      if lag != 0 {
        v := Draining;
        GiveUp();
        WaitInOrder(w.cfg, id, old(Mine()), gaps);
      } else {
        v, before := FinalizeDrained(seen);
        DrainInOrder(w.cfg, id, old(Mine()), gaps);
      }
    }

    /** The part of handle after the status check: snapshot, time check, drain check, finalization. */
    method Advance(ghost x: Snap) returns (v: Verdict)
      requires w.Valid() && At(x) && x.Reading? && !x.final && x.unread == AllShardsOf(w.cfg) && x.acc == EMPTY
      modifies w
      ensures w.Valid() && old(w.trace) <= w.trace && id !in w.s.snaps
      ensures v in {Erred, TooEarly, Draining, CloseConflict, Finalized}
      ensures v == TooEarly ==> x.now < x.row.closesAt + w.cfg.grace
      ensures v in {Draining, CloseConflict, Finalized} ==> x.now >= x.row.closesAt + w.cfg.grace
      ensures v == Finalized ==> IsClosed(w.s)
      ensures v == TooEarly ==> Mine() == old(Mine()) + TickActions(id, w.cfg.shards) + [Own(id, Abort)]
      ensures v == Draining ==> Waited(w.cfg, id, old(Mine()) + TickActions(id, w.cfg.shards), Mine())
      ensures v in {CloseConflict, Finalized} ==>
                WentThrough(w.cfg, id, old(Mine()) + TickActions(id, w.cfg.shards), Mine())
      ensures w.failures == old(w.failures) + (if v == Erred then 1 else 0)
    {
      var ok := TickOnce(x);
      if !ok { return Erred; }
      var y := w.s.snaps[id];
      if y.now < y.row.closesAt + w.cfg.grace {
        GiveUp();
        return TooEarly;
      }
      ghost var seen, before;
      v, seen, before := DrainAndFinalize(y);
    }

    /** handle, after its clock reading. */
    method Handle(x: Snap) returns (v: Verdict)
      requires w.Valid() && At(x) && x.Handling?
      modifies w
      ensures w.Valid() && old(w.trace) <= w.trace && id !in w.s.snaps
      ensures v != NotListed
      ensures v == Finalized ==> IsClosed(w.s)
      ensures v in {Opened, OpenConflict} ==> Due(x.row, x.now)
      ensures Due(x.row, x.now) ==> v in {Erred, Opened, OpenConflict}
      ensures v == Idle <==> x.row.status != Open && !Due(x.row, x.now)
      ensures v == Opened ==>
                && w.s.history != [] && Current(w.s.history) == x.row.(status := Open, version := x.row.version + 1)
                && x.now <= w.s.now
      ensures Handled(w.cfg, id, v, old(Mine()), Mine())
      ensures w.failures == old(w.failures) + (if v == Erred then 1 else 0)
    {
      if ShouldOpenAt(WindowOf(x.row), x.now) {
        ghost var before;
        v, before := OpenRow(x);
      } else if x.row.status != Open {
        GiveUp();
        v := Idle;
      } else {
        Begin(BeginTick, x);
        v := Advance(w.s.snaps[id]);
      }
    }

    /**
     * One round of Tick for the poll. The verdict tells exactly which actions were taken, in which order, and an
     * error is reported exactly when a call failed; finalized means the row is closed and the stored result exact.
     */
    method Tick() returns (v: Verdict)
      requires w.Valid() && id !in w.s.snaps
      modifies w
      ensures w.Valid() && old(w.trace) <= w.trace
      ensures RoundDone(w.cfg, id, w.s, v, old(Mine()), Mine())
      ensures w.failures == old(w.failures) + (if v == Erred then 1 else 0)
    {
      v := ListPoll();
      if v == Idle {
        v := Handle(w.s.snaps[id]);
        if v == Finalized {
          w.ClosedIsExact();
        }
      }
    }
  }

  /** Each poll is a world of its own. */
  ghost predicate Apart(all: seq<Snapshotter>) {
    forall i, j :: 0 <= i < j < |all| ==> all[i].w != all[j].w
  }

  /** What one round leaves behind for one poll, by verdict. */
  ghost predicate RoundDone(cfg: Config, id: nat, s: State, v: Verdict, before: seq<Action>, after: seq<Action>) {
    && id !in s.snaps
    && (v == NotListed ==> IsClosed(s) && after == before)
    && (v != NotListed ==> Handled(cfg, id, v, before + [Own(id, List), Own(id, Clock)], after))
    && (v == Finalized ==> IsClosed(s) && (AllHypotheses(cfg) ==> Exact(cfg, s)))
    && (v == Opened ==>
          && s.history != [] && Current(s.history).status == Open
          && Current(s.history).opensAt != 0 && Current(s.history).opensAt <= s.now)
  }

  twostate predicate RoundOf(s: Snapshotter, v: Verdict)
    reads s.w
  {
    && s.w.Valid() && old(s.w.trace) <= s.w.trace
    && RoundDone(s.w.cfg, s.id, s.w.s, v, old(s.Mine()), s.Mine())
    && s.w.failures == old(s.w.failures) + (if v == Erred then 1 else 0)
  }

  /**
   * Tick over all polls: a poll whose handling fails does not keep the others from theirs, and the round is reported as
   * failed exactly when some call for some poll failed.
   */
  method TickAll(all: seq<Snapshotter>) returns (verdicts: seq<Verdict>, failed: bool)
    requires Apart(all) && forall i :: 0 <= i < |all| ==> all[i].w.Valid() && all[i].id !in all[i].w.s.snaps
    modifies set i | 0 <= i < |all| :: all[i].w
    ensures |verdicts| == |all|
    ensures forall i :: 0 <= i < |all| ==> RoundOf(all[i], verdicts[i])
    ensures failed <==> Erred in verdicts
  {
    verdicts, failed := [], false;
    for n := 0 to |all|
      invariant |verdicts| == n
      invariant forall i :: n <= i < |all| ==> unchanged(all[i].w)
      invariant forall i :: 0 <= i < n ==> RoundOf(all[i], verdicts[i])
      invariant failed <==> Erred in verdicts
    {
      var v := all[n].Tick();
      verdicts := verdicts + [v];
      failed := failed || v == Erred;
    }
  }

  /** The snapshotter's own actions before and after the handling of one listed poll, by verdict. */
  ghost predicate Handled(cfg: Config, id: nat, v: Verdict, before: seq<Action>, after: seq<Action>) {
    var ticked := before + [Own(id, BeginTick)] + TickActions(id, cfg.shards);
    match v
    case Opened => after == before + [Own(id, OpenPoll)]
    case Idle => after == before + [Own(id, Abort)]
    case TooEarly => after == ticked + [Own(id, Abort)]
    case Draining => Waited(cfg, id, ticked, after)
    case Finalized => WentThrough(cfg, id, ticked, after)
    case OpenConflict => after == before + [Own(id, OpenPoll)]
    case CloseConflict => WentThrough(cfg, id, ticked, after)
    case Erred => true
    case NotListed => false
  }

  lemma Regrouped<T>(before: seq<T>, a: seq<T>, b: seq<T>, c: seq<T>, d: seq<T>)
    ensures before + a + b + c + d == before + (a + b + c + d)
  {
  }

  lemma WaitInOrder(cfg: Config, id: nat, before: seq<Action>, gaps: seq<bool>)
    ensures before + [Own(id, GracePassed)] + LagActions(id, gaps) + [Own(id, Abort)] ==
              before + WaitActions(cfg, id, gaps)
  {
    Regrouped(before, [Own(id, GracePassed)], LagActions(id, gaps), [Own(id, Abort)], []);
  }

  lemma DrainInOrder(cfg: Config, id: nat, before: seq<Action>, gaps: seq<bool>)
    ensures before + [Own(id, GracePassed)] + LagActions(id, gaps) + [Own(id, BeginFinal)] +
              TickActions(id, cfg.shards) + [Own(id, ClosePoll)] == before + DrainActions(cfg, id, gaps)
  {
    Regrouped(before, [Own(id, GracePassed)], LagActions(id, gaps), [Own(id, BeginFinal)],
              TickActions(id, cfg.shards));
    Regrouped(before, [Own(id, GracePassed)] + LagActions(id, gaps) + [Own(id, BeginFinal)],
              TickActions(id, cfg.shards), [Own(id, ClosePoll)], []);
  }

  /** Only the lag of partition q differs. */
  ghost predicate SameBut(x: Snap, y: Snap, q: nat)
    requires x.Lagging? && y.Lagging?
  {
    forall p: nat :: p != q ==> LagAt(y, p) == LagAt(x, p)
  }

  /** The first q partitions have been read, with this total. */
  ghost predicate LagsRead(cfg: Config, x0: Snap, x: Snap, q: nat, total: int, gaps: seq<bool>) {
    && x.Lagging? && x0.Lagging? && x.row == x0.row && x.now == x0.now
    && x.committed.Keys == NumbersBelow(q) && x.ends.Keys == NumbersBelow(q)
    && total == TotalLag(x, q)
    && |gaps| == q && (cfg.hyp.knownLags ==> forall p :: 0 <= p < q ==> !gaps[p])
  }

  lemma LagsReadOneMore(
    cfg: Config, x0: Snap, x: Snap, y: Snap, q: nat, total: int, lag: int, gaps: seq<bool>, unknown: bool)
    requires LagsRead(cfg, x0, x, q, total, gaps) && y.Lagging? && y.row == x.row && y.now == x.now
    requires y.committed.Keys == x.committed.Keys + {q} && y.ends.Keys == x.ends.Keys + {q}
    requires LagAt(y, q) == (if lag > 0 then lag else 0) && SameBut(x, y, q) && (cfg.hyp.knownLags ==> !unknown)
    ensures LagsRead(cfg, x0, y, q + 1, if lag > 0 then total + lag else total, gaps + [unknown])
  {
    TotalOneMore(x, y, q);
  }

  lemma TotalOneMore(x: Snap, y: Snap, q: nat)
    requires x.Lagging? && y.Lagging? && SameBut(x, y, q)
    ensures TotalLag(y, q + 1) == TotalLag(x, q) + LagAt(y, q)
  {
    SameTotalBelow(x, y, q, q);
  }

  lemma {:induction false} SameTotalBelow(x: Snap, y: Snap, q: nat, n: nat)
    requires x.Lagging? && y.Lagging? && n <= q
    requires forall p: nat :: p < q ==> LagAt(y, p) == LagAt(x, p)
    ensures TotalLag(y, n) == TotalLag(x, n)
  {
    if n > 0 {
      SameTotalBelow(x, y, q, n - 1);
    }
  }

  lemma OneMoreLag(id: nat, gaps: seq<bool>, unknown: bool, before: seq<Action>)
    ensures before + LagActions(id, gaps) + PartitionActions(id, |gaps|, unknown) ==
            before + LagActions(id, gaps + [unknown])
  {
    assert (gaps + [unknown])[..|gaps|] == gaps;
  }
}
