/** From every state a run can get into, another run leads on to the closed poll and its exact result. */
module Progress {
  import opened Domain
  import opened Protocol
  import opened Safety
  import opened Theorems

  // ---- Runs onwards from a state ----

  /** Some run leads from o to s. */
  ghost predicate From(cfg: Config, o: State, s: State) {
    exists trace: seq<Action> :: Runs(cfg, o, trace) && After(cfg, o, trace) == s
  }

  lemma {:induction false} RunsAppend(cfg: Config, s: State, trace: seq<Action>, a: Action)
    requires Runs(cfg, s, trace) && Enabled(cfg, After(cfg, s, trace), a)
    ensures Runs(cfg, s, trace + [a])
    ensures After(cfg, s, trace + [a]) == Next(cfg, After(cfg, s, trace), a)
    decreases |trace|
  {
    var longer := trace + [a];
    if trace == [] {
      assert longer[1..] == [];
    } else {
      assert longer[1..] == trace[1..] + [a];
      RunsAppend(cfg, Next(cfg, s, trace[0]), trace[1..], a);
    }
  }

  lemma Here(cfg: Config, s: State)
    ensures From(cfg, s, s)
  {
    assert Runs(cfg, s, []) && After(cfg, s, []) == s;
  }

  lemma Step(cfg: Config, o: State, s: State, a: Action) returns (s': State)
    requires From(cfg, o, s) && Enabled(cfg, s, a)
    ensures s' == Next(cfg, s, a) && From(cfg, o, s')
  {
    var trace: seq<Action> :| Runs(cfg, o, trace) && After(cfg, o, trace) == s;
    RunsAppend(cfg, o, trace, a);
    s' := Next(cfg, s, a);
  }

  lemma {:induction false} RunsOn(cfg: Config, s: State, first: seq<Action>, second: seq<Action>)
    requires Runs(cfg, s, first) && Runs(cfg, After(cfg, s, first), second)
    ensures Runs(cfg, s, first + second)
    ensures After(cfg, s, first + second) == After(cfg, After(cfg, s, first), second)
    decreases |first|
  {
    if first == [] {
      assert first + second == second;
    } else {
      assert (first + second)[1..] == first[1..] + second;
      RunsOn(cfg, Next(cfg, s, first[0]), first[1..], second);
    }
  }

  /** Onwards from a reachable state, every state is reachable. */
  lemma StillReachable(cfg: Config, o: State, s: State)
    requires Reachable(cfg, o) && From(cfg, o, s)
    ensures Reachable(cfg, s)
  {
    var start: Time, first: seq<Action> :|
      Runs(cfg, Init(cfg, start), first) && After(cfg, Init(cfg, start), first) == o;
    var second: seq<Action> :| Runs(cfg, o, second) && After(cfg, o, second) == s;
    RunsOn(cfg, Init(cfg, start), first, second);
  }

  // ---- A drained poll can be closed ----

  lemma ReadAllShards(cfg: Config, o: State, s: State, id: nat) returns (s': State)
    requires From(cfg, o, s) && s.history != [] && id in s.snaps && s.snaps[id].Reading?
    ensures From(cfg, o, s') && id in s'.snaps && s' == WithSnap(s, id, s'.snaps[id])
    ensures s'.snaps[id].Reading? && s'.snaps[id].unread == {}
    ensures var x, x' := s.snaps[id], s'.snaps[id]; x'.row == x.row && x'.now == x.now && x'.final == x.final
    decreases s.snaps[id].unread
  {
    if s.snaps[id].unread == {} {
      s' := s;
      assert s.snaps == s.snaps[id := s.snaps[id]];
    } else {
      var k :| k in s.snaps[id].unread;
      var t := Step(cfg, o, s, Snapshot(id, ReadShard(k)));
      s' := ReadAllShards(cfg, o, t, id);
      assert s'.snaps == s.snaps[id := s'.snaps[id]];
    }
  }

  lemma TickToTheEnd(cfg: Config, o: State, s: State, id: nat) returns (s': State)
    requires From(cfg, o, s) && s.history != [] && id in s.snaps && s.snaps[id].Reading?
    ensures From(cfg, o, s') && s'.pipe == s.pipe && s'.history == s.history && s'.now == s.now
    ensures id in s'.snaps
    ensures var x := s.snaps[id];
            s'.snaps[id] == if x.final then Snapshotted(x.row, x.now) else Ticked(x.row, x.now)
  {
    var t := ReadAllShards(cfg, o, s, id);
    var u := Step(cfg, o, t, Snapshot(id, GetPrev));
    s' := Step(cfg, o, u, Snapshot(id, Upsert));
  }

  /** A partition whose lag will not stop finalization: nothing outstanding, or not known. */
  ghost predicate LooksDrained(cfg: Config, p: Pipe, q: nat) {
    q < |p.logs| && q < |p.committed| && (p.committed[q] == |p.logs[q]| || !cfg.hyp.knownLags)
  }

  ghost predicate LagsReadUpTo(x: Snap, n: nat)
    requires x.Lagging?
  {
    && (forall q: nat :: q < n ==> q in x.committed && q in x.ends && LagAt(x, q) == 0)
    && (forall q :: q in x.committed || q in x.ends ==> q < n)
  }

  lemma ReadOneLag(cfg: Config, o: State, s: State, id: nat, n: nat) returns (s': State)
    requires From(cfg, o, s) && s.history != [] && id in s.snaps && s.snaps[id].Lagging?
    requires LagsReadUpTo(s.snaps[id], n) && LooksDrained(cfg, s.pipe, n)
    ensures From(cfg, o, s') && s'.pipe == s.pipe && s'.history == s.history && s'.now == s.now
    ensures id in s'.snaps && s'.snaps[id].Lagging? && LagsReadUpTo(s'.snaps[id], n + 1)
    ensures s'.snaps[id].row == s.snaps[id].row && s'.snaps[id].now == s.snaps[id].now
  {
    var x := s.snaps[id];
    assert n !in x.committed && n !in x.ends;
    if cfg.hyp.knownLags {
      var t := Step(cfg, o, s, Snapshot(id, ReadCommitted(n)));
      s' := Step(cfg, o, t, Snapshot(id, ReadEnd(n)));
    } else {
      s' := Step(cfg, o, s, Snapshot(id, ReadUnknown(n)));
    }
    var y := s'.snaps[id];
    forall q: nat | q < n + 1 ensures q in y.committed && q in y.ends && LagAt(y, q) == 0 {
      if q < n {
        assert LagAt(x, q) == 0;
      }
    }
  }

  lemma ReadAllLags(cfg: Config, o: State, s: State, id: nat, n: nat) returns (s': State)
    requires From(cfg, o, s) && s.history != [] && id in s.snaps && s.snaps[id].Lagging?
    requires n <= cfg.partitions && LagsReadUpTo(s.snaps[id], n)
    requires forall q: nat :: q < cfg.partitions ==> LooksDrained(cfg, s.pipe, q)
    ensures From(cfg, o, s') && s'.pipe == s.pipe && s'.history == s.history && s'.now == s.now
    ensures id in s'.snaps && s'.snaps[id].Lagging? && LagsReadUpTo(s'.snaps[id], cfg.partitions)
    ensures s'.snaps[id].row == s.snaps[id].row && s'.snaps[id].now == s.snaps[id].now
    decreases cfg.partitions - n
  {
    if n == cfg.partitions {
      s' := s;
    } else {
      var t := ReadOneLag(cfg, o, s, id, n);
      s' := ReadAllLags(cfg, o, t, id, n + 1);
    }
  }

  lemma {:induction false} NoLagInTotal(x: Snap, n: nat, m: nat)
    requires x.Lagging? && LagsReadUpTo(x, n) && m <= n
    ensures TotalLag(x, m) == 0
  {
    if m > 0 {
      NoLagInTotal(x, n, m - 1);
    }
  }

  /**
   * Progress: once the grace period of an open poll is over and no partition shows a lag, an undisturbed
   * snapshotter brings the poll to its close.
   */
  lemma DrainedPollCanClose(cfg: Config, o: State, s: State) returns (s': State)
    requires From(cfg, o, s) && s.snaps == map[] && s.history != []
    requires Current(s.history).status == Open && Current(s.history).closesAt + cfg.grace <= s.now
    requires forall q: nat :: q < cfg.partitions ==> LooksDrained(cfg, s.pipe, q)
    ensures From(cfg, o, s') && IsClosed(s') && s'.pipe == s.pipe && s'.now == s.now
    ensures Current(s'.history).closesAt == Current(s.history).closesAt
  {
    var row := Current(s.history);
    var a := Step(cfg, o, s, Snapshot(0, List));
    var b := Step(cfg, o, a, Snapshot(0, Clock));
    var c := Step(cfg, o, b, Snapshot(0, BeginTick));
    var d := TickToTheEnd(cfg, o, c, 0);
    var e := Step(cfg, o, d, Snapshot(0, GracePassed));
    var f := ReadAllLags(cfg, o, e, 0, 0);
    NoLagInTotal(f.snaps[0], cfg.partitions, cfg.partitions);
    s' := FinishClose(cfg, o, f, 0);
  }

  lemma FinishClose(cfg: Config, o: State, s: State, id: nat) returns (s': State)
    requires From(cfg, o, s) && s.history != [] && id in s.snaps && s.snaps[id].Lagging?
    requires LagsReadUpTo(s.snaps[id], cfg.partitions) && TotalLag(s.snaps[id], cfg.partitions) == 0
    requires s.snaps[id].row == Current(s.history)
    ensures From(cfg, o, s') && IsClosed(s') && s'.pipe == s.pipe && s'.now == s.now
    ensures Current(s'.history).closesAt == Current(s.history).closesAt
  {
    var g := Step(cfg, o, s, Snapshot(id, BeginFinal));
    var h := TickToTheEnd(cfg, o, g, id);
    s' := Step(cfg, o, h, Snapshot(id, ClosePoll));
  }

  // ---- Everybody else out of the way ----

  lemma {:induction false} FreshId(ids: set<nat>) returns (bound: nat)
    ensures forall j :: j in ids ==> j < bound
  {
    if ids == {} {
      bound := 0;
    } else {
      var i :| i in ids;
      var below := FreshId(ids - {i});
      bound := if i < below then below else i + 1;
      forall j | j in ids ensures j < bound {
        assert j == i || j in ids - {i};
      }
    }
  }

  lemma AbortAll(cfg: Config, o: State, s: State) returns (s': State)
    requires From(cfg, o, s) && s.history != []
    ensures From(cfg, o, s') && s' == s.(snaps := map[])
    decreases s.snaps.Keys
  {
    if s.snaps == map[] {
      s' := s;
    } else {
      var id :| id in s.snaps;
      var t := Step(cfg, o, s, Snapshot(id, Abort));
      assert t.snaps.Keys == s.snaps.Keys - {id};
      s' := AbortAll(cfg, o, t);
    }
  }

  /**
   * A scheduled poll whose opening time is set and has come is opened by any snapshotter that is free, in three steps
   * of its own and without an admin.
   */
  lemma ScheduledPollOpens(cfg: Config, s: State, id: nat)
    requires s.history != [] && id !in s.snaps && Current(s.history).status == Scheduled
    requires Current(s.history).opensAt != 0 && Current(s.history).opensAt <= s.now
    ensures var steps := [Snapshot(id, List), Snapshot(id, Clock), Snapshot(id, OpenPoll)];
            && Runs(cfg, s, steps)
            && var s' := After(cfg, s, steps);
               && s'.history != []
               && Current(s'.history) == Current(s.history).(status := Open, version := Current(s.history).version + 1)
               && s'.pipe == s.pipe && s'.now == s.now && s'.snaps == s.snaps
  {
    var row := Current(s.history);
    var a := Next(cfg, s, Snapshot(id, List));
    var b := Next(cfg, a, Snapshot(id, Clock));
    var c := Next(cfg, b, Snapshot(id, OpenPoll));
    assert b.snaps[id] == Handling(row, s.now);
    ThreeSteps(cfg, s, Snapshot(id, List), Snapshot(id, Clock), Snapshot(id, OpenPoll));
    assert c.snaps == s.snaps;
  }

  lemma ThreeSteps(cfg: Config, s: State, x: Action, y: Action, z: Action)
    requires Enabled(cfg, s, x) && Enabled(cfg, Next(cfg, s, x), y) && Enabled(cfg, Next(cfg, Next(cfg, s, x), y), z)
    ensures Runs(cfg, s, [x, y, z])
    ensures After(cfg, s, [x, y, z]) == Next(cfg, Next(cfg, Next(cfg, s, x), y), z)
  {
    RunsAppend(cfg, s, [], x);
    RunsAppend(cfg, s, [x], y);
    RunsAppend(cfg, s, [x, y], z);
    assert [] + [x] == [x] && [x] + [y] == [x, y] && [x, y] + [z] == [x, y, z];
  }

  /** A scheduled poll can be opened by hand. */
  lemma OpenUp(cfg: Config, o: State, s: State) returns (s': State)
    requires From(cfg, o, s) && s.history != [] && Current(s.history).status in {Scheduled, Open}
    ensures From(cfg, o, s') && s'.history != [] && Current(s'.history).status == Open
    ensures s'.pipe == s.pipe && s'.snaps == s.snaps
  {
    if Current(s.history).status == Open {
      s' := s;
    } else {
      var t := Step(cfg, o, s, Administer(0, Load));
      s' := Step(cfg, o, t, Administer(0, OpenByHand));
    }
  }

  // ---- A consumer that catches up ----

  function Idle(position: map<nat, nat>): Member {
    Member(false, position, {}, {}, {})
  }

  /** Only the consumer and Redis have moved on, and no record or commit was lost or gained. */
  ghost predicate OnlyWork(s: State, s': State) {
    && s' == s.(pipe := s'.pipe)
    && s'.pipe.logs == s.pipe.logs && s'.pipe.committed == s.pipe.committed
  }

  lemma Consumes(cfg: Config, o: State, s: State, c: nat, a: ConsumerAction) returns (s': State)
    requires From(cfg, o, s) && ConsumerEnabled(cfg, s.pipe, IsClosed(s), c, a)
    ensures From(cfg, o, s') && s' == s.(pipe := ConsumerNext(cfg, s.pipe, IsClosed(s), c, a))
  {
    s' := Step(cfg, o, s, Consume(c, a));
  }

  ghost predicate Has(s: State, c: nat, m: Member) {
    c in s.pipe.members && s.pipe.members[c] == m
  }

  /** One record of the batch is launched, counted or refused, and finished. */
  lemma HandleOne(cfg: Config, o: State, s: State, c: nat, m: Member, slot: Slot) returns (s': State)
    requires From(cfg, o, s) && Has(s, c, m) && m.running == {} && slot in m.batch && ValidSlot(s.pipe, slot)
    ensures From(cfg, o, s') && OnlyWork(s, s') && Has(s', c, m.(batch := m.batch - {slot}))
  {
    var t := Consumes(cfg, o, s, c, Launch(slot));
    s' := FinishOne(cfg, o, t, c, m.(batch := m.batch - {slot}, running := {slot}), slot);
  }

  lemma FinishOne(cfg: Config, o: State, s: State, c: nat, m: Member, slot: Slot) returns (s': State)
    requires From(cfg, o, s) && Has(s, c, m) && m.running == {slot} && ValidSlot(s.pipe, slot)
    ensures From(cfg, o, s') && OnlyWork(s, s') && Has(s', c, m.(running := {}))
  {
    var b := BallotOf(cfg, RecordAt(s.pipe, slot));
    if b.None? {
      s' := Consumes(cfg, o, s, c, Reject(slot));
    } else {
      var t := Consumes(cfg, o, s, c, Send(slot));
      var u := Step(cfg, o, t, Script(b.value));
      s' := Consumes(cfg, o, u, c, Reply(slot));
    }
    assert m.running - {slot} == {};
  }

  lemma HandleBatch(cfg: Config, o: State, s: State, c: nat, m: Member) returns (s': State)
    requires From(cfg, o, s) && Has(s, c, m) && m.running == {}
    requires forall slot :: slot in m.batch ==> ValidSlot(s.pipe, slot)
    ensures From(cfg, o, s') && OnlyWork(s, s') && Has(s', c, m.(batch := {}))
    decreases m.batch
  {
    if m.batch == {} {
      s' := s;
    } else {
      var slot :| slot in m.batch;
      var t := HandleOne(cfg, o, s, c, m, slot);
      s' := HandleBatch(cfg, o, t, c, m.(batch := m.batch - {slot}));
    }
  }

  lemma FetchedRest(p: Pipe, position: map<nat, nat>, q: nat, upTo: map<nat, nat>)
    requires q in position && q < |p.logs| && upTo == map[q := |p.logs[q]|]
    ensures position + upTo == position[q := |p.logs[q]|]
    ensures forall slot :: slot in Fetched(position, upTo) ==> ValidSlot(p, slot)
  {
  }

  /** What the consumer still has to read of a partition, fetched in one go. */
  lemma FetchRest(cfg: Config, o: State, s: State, c: nat, position: map<nat, nat>, q: nat)
    returns (s': State, m: Member)
    requires From(cfg, o, s) && Has(s, c, Idle(position)) && q < |s.pipe.logs|
    requires q in position && position[q] <= |s.pipe.logs[q]|
    ensures From(cfg, o, s') && OnlyWork(s, s') && Has(s', c, m)
    ensures m == Idle(position[q := |s.pipe.logs[q]|]).(batch := m.batch)
    ensures forall slot :: slot in m.batch ==> ValidSlot(s'.pipe, slot)
  {
    var upTo: map<nat, nat> := map[q := |s.pipe.logs[q]|];
    s' := Consumes(cfg, o, s, c, Fetch(upTo));
    m := s'.pipe.members[c];
    FetchedRest(s.pipe, position, q, upTo);
  }

  lemma CommitOne(cfg: Config, o: State, s: State, c: nat, position: map<nat, nat>, q: nat) returns (s': State)
    requires From(cfg, o, s) && Has(s, c, Idle(position))
    requires |s.pipe.committed| == |s.pipe.logs| && q < |s.pipe.logs| && q in position
    ensures From(cfg, o, s') && Has(s', c, Idle(position))
    ensures s' == s.(pipe := s.pipe.(committed := s.pipe.committed[q := position[q]]))
  {
    s' := Consumes(cfg, o, s, c, Commit({q}));
    assert s'.pipe.committed == s.pipe.committed[q := position[q]];
  }

  /** One partition, from its committed offset to its end. */
  lemma CatchUp(cfg: Config, o: State, s: State, c: nat, position: map<nat, nat>, q: nat)
    returns (s': State, position': map<nat, nat>)
    requires From(cfg, o, s) && Has(s, c, Idle(position))
    requires |s.pipe.committed| == |s.pipe.logs| && q < |s.pipe.logs| && s.pipe.committed[q] <= |s.pipe.logs[q]|
    ensures From(cfg, o, s') && Has(s', c, Idle(position'))
    ensures s' == s.(pipe := s'.pipe) && s'.pipe.logs == s.pipe.logs
    ensures s'.pipe.committed == s.pipe.committed[q := |s.pipe.logs[q]|]
  {
    var resumed := position[q := s.pipe.committed[q]];
    var t := Consumes(cfg, o, s, c, Assign(q));
    var fetched, m := FetchRest(cfg, o, t, c, resumed, q);
    position' := resumed[q := |s.pipe.logs[q]|];
    var handled := HandleBatch(cfg, o, fetched, c, m);
    s' := CommitOne(cfg, o, handled, c, position', q);
  }

  ghost predicate CaughtUp(p: Pipe, n: nat) {
    && |p.committed| == |p.logs|
    && forall q :: 0 <= q < |p.logs| ==> p.committed[q] <= |p.logs[q]| && (q < n ==> p.committed[q] == |p.logs[q]|)
  }

  lemma CatchUpAll(cfg: Config, o: State, s: State, c: nat, position: map<nat, nat>, n: nat) returns (s': State)
    requires From(cfg, o, s) && Has(s, c, Idle(position)) && CaughtUp(s.pipe, n) && n <= |s.pipe.logs|
    ensures From(cfg, o, s') && s' == s.(pipe := s'.pipe) && s'.pipe.logs == s.pipe.logs
    ensures CaughtUp(s'.pipe, |s'.pipe.logs|)
    decreases |s.pipe.logs| - n
  {
    if n == |s.pipe.logs| {
      s' := s;
    } else {
      var t, reached := CatchUp(cfg, o, s, c, position, n);
      s' := CatchUpAll(cfg, o, t, c, reached, n + 1);
    }
  }

  lemma NewConsumerCatchesUp(cfg: Config, o: State, s: State) returns (s': State)
    requires From(cfg, o, s) && CaughtUp(s.pipe, 0)
    ensures From(cfg, o, s') && s' == s.(pipe := s'.pipe) && s'.pipe.logs == s.pipe.logs
    ensures CaughtUp(s'.pipe, |s'.pipe.logs|)
  {
    var c := FreshId(s.pipe.members.Keys);
    var t := Consumes(cfg, o, s, c, JoinGroup);
    s' := CatchUpAll(cfg, o, t, c, map[], 0);
  }

  // ---- Every poll can be finished ----

  /**
   * Under no hypothesis at all: from every state of every run, whatever has crashed, stalled or been abandoned there,
   * some further run closes the poll without any new record. And under the hypotheses it does so on the exact result.
   */
  lemma EveryPollCanFinish(cfg: Config, o: State) returns (s: State)
    requires Reachable(cfg, o)
    ensures From(cfg, o, s) && IsClosed(s) && s.pipe.logs == o.pipe.logs
    ensures AllHypotheses(cfg) ==> Exact(cfg, s)
  {
    ReachableInv(cfg, o);
    Here(cfg, o);
    s := o;
    if !IsClosed(o) {
      var a := OpenUp(cfg, o, o);
      var b := AbortAll(cfg, o, a);
      var c := NewConsumerCatchesUp(cfg, o, b);
      var end := Current(c.history).closesAt + cfg.grace;
      var d := Step(cfg, o, c, Pass(if end > c.now then end - c.now else 0));
      s := DrainedPollCanClose(cfg, o, d);
    }
    StillReachable(cfg, o, s);
    ReachableInv(cfg, s);
  }
}
