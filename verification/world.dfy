/**
 * The running system as seen by one piece of code: every port of the snapshotter and of the consumer is an
 * atomic action of the pipeline, and before each of them the rest of the system may take any number of steps.
 */
module Worlds {
  import opened Domain
  import opened Protocol
  import opened Invariants
  import opened Safety
  import opened Theorems
  import opened Progress

  /** Whose code takes an action. The workers of a consumer run beside its own loop. */
  datatype Actor = OfSnapshotter(id: nat) | OfLoop(c: nat) | OfAdmin(who: nat) | OfViewer(viewer: nat) | OfOthers

  function ActorOf(a: Action): Actor {
    match a
    case Snapshot(id, _) => OfSnapshotter(id)
    case Consume(c, step) =>
      if step.JoinGroup? || step.Fetch? || step.SkipFetch? || step.Launch? || step.Leave? || step.Commit? || step.Crash?
      then OfLoop(c) else OfOthers
    case Administer(who, _) => OfAdmin(who)
    case Look(viewer, _) => OfViewer(viewer)
    case _ => OfOthers
  }

  /** The actions of one actor along a trace. */
  function ActionsOf(trace: seq<Action>, me: Actor): seq<Action> {
    if trace == [] then []
    else
      ActionsOf(trace[..|trace| - 1], me) +
      (if ActorOf(trace[|trace| - 1]) == me then [trace[|trace| - 1]] else [])
  }

  lemma ActionsOfOneMore(trace: seq<Action>, a: Action, me: Actor)
    ensures ActionsOf(trace + [a], me) == ActionsOf(trace, me) + (if ActorOf(a) == me then [a] else [])
  {
    assert (trace + [a])[..|trace|] == trace;
  }

  /** A record's progress within one member: nothing launched or abandoned, and nothing lost. */
  ghost predicate Accounted(p: Pipe, c: nat, slots: set<Slot>) {
    && c in p.members
    && slots <= p.done + Busy(p.members[c])
    && (p.members[c].dropped != {} ==> p.members[c].cancelled)
  }

  /** What one actor may rely on while others run. */
  ghost predicate Undisturbed(s: State, s': State, me: Actor) {
    && (me.OfSnapshotter? ==>
          (me.id in s.snaps <==> me.id in s'.snaps) && (me.id in s.snaps ==> s'.snaps[me.id] == s.snaps[me.id]))
    && (me.OfAdmin? ==>
          && (me.who in s.admins <==> me.who in s'.admins)
          && (me.who in s.admins ==> s'.admins[me.who] == s.admins[me.who]))
    && (me.OfViewer? ==>
          && (me.viewer in s.viewers <==> me.viewer in s'.viewers)
          && (me.viewer in s.viewers ==> s'.viewers[me.viewer] == s.viewers[me.viewer]))
    && (me.OfLoop? && me.c in s.pipe.members ==>
          && me.c in s'.pipe.members
          && var m, m' := s.pipe.members[me.c], s'.pipe.members[me.c];
             && m'.batch == m.batch && m'.running <= m.running && (m.cancelled ==> m'.cancelled)
             && s.pipe.done <= s'.pipe.done
             && (forall slots :: Accounted(s.pipe, me.c, slots) ==> Accounted(s'.pipe, me.c, slots)))
  }

  lemma OthersDisturbNoSnapshotter(cfg: Config, s: State, a: Action, id: nat)
    requires Enabled(cfg, s, a) && ActorOf(a) != OfSnapshotter(id)
    ensures Undisturbed(s, Next(cfg, s, a), OfSnapshotter(id))
  {
    if a.Snapshot? {
      OtherSnapshotters(cfg, s, a.id, a.act, id);
    } else {
      StepIsLocal(cfg, s, a);
    }
  }

  lemma OtherSnapshotters(cfg: Config, s: State, id: nat, act: SnapAction, me: nat)
    requires SnapEnabled(cfg, s, id, act) && id != me
    ensures var s' := SnapNext(cfg, s, id, act);
            (me in s.snaps <==> me in s'.snaps) && (me in s.snaps ==> s'.snaps[me] == s.snaps[me])
  {
  }

  lemma WorkersLeaveTheLoopAlone(cfg: Config, p: Pipe, closed: bool, c: nat, a: ConsumerAction, me: nat)
    requires ConsumerEnabled(cfg, p, closed, c, a) && me in p.members
    requires me != c || !(a.JoinGroup? || a.Fetch? || a.SkipFetch? || a.Launch? || a.Leave? || a.Commit? || a.Crash?)
    ensures var p' := ConsumerNext(cfg, p, closed, c, a);
            && me in p'.members
            && var m, m' := p.members[me], p'.members[me];
               && m'.batch == m.batch && m'.running <= m.running && (m.cancelled ==> m'.cancelled)
               && p.done + Busy(m) <= p'.done + Busy(m')
               && (m'.dropped != {} ==> m.dropped != {} || m.cancelled)
  {
  }

  lemma OthersDisturbNoLoop(cfg: Config, s: State, a: Action, me: nat)
    requires Enabled(cfg, s, a) && ActorOf(a) != OfLoop(me)
    ensures Undisturbed(s, Next(cfg, s, a), OfLoop(me))
  {
    var s' := Next(cfg, s, a);
    if a.Consume? {
      ConsumerStepIsLocal(cfg, s.pipe, IsClosed(s), a.c, a.step);
      if me in s.pipe.members {
        WorkersLeaveTheLoopAlone(cfg, s.pipe, IsClosed(s), a.c, a.step, me);
      }
    } else if a.Snapshot? {
      SnapStepIsLocal(cfg, s, a.id, a.act);
    } else {
      assert s'.pipe.members == s.pipe.members && s'.pipe.done == s.pipe.done;
    }
  }

  lemma OthersKeepCopies(cfg: Config, s: State, a: Action, me: Actor)
    requires Enabled(cfg, s, a) && ActorOf(a) != me && (me.OfAdmin? || me.OfViewer?)
    ensures Undisturbed(s, Next(cfg, s, a), me)
  {
  }

  class World {
    const cfg: Config
    const start: Time
    var s: State
    ghost var trace: seq<Action>
    /** What the others will try next, in rounds; a move that is not possible when its turn comes is skipped. */
    var rounds: seq<seq<Action>>
    /** Which of the coming calls fail. */
    var faults: seq<bool>
    /** Which of the coming lag readings find a partition's lag unknown. */
    var gaps: seq<bool>
    /** Which of the coming lookups find no configuration, and which of the coming store errors are not retried. */
    var dropped: seq<bool>
    /** How many calls have failed so far, how many lookups have, and how many errors were final. */
    ghost var failures: nat
    ghost var misses: nat
    ghost var finals: nat

    ghost predicate Valid()
      reads this
    {
      Runs(cfg, Init(cfg, start), trace) && After(cfg, Init(cfg, start), trace) == s
    }

    constructor (
      cfg: Config, start: Time, rounds: seq<seq<Action>>, faults: seq<bool>, gaps: seq<bool>, dropped: seq<bool>)
      ensures Valid() && this.cfg == cfg && this.start == start && s == Init(cfg, start) && trace == []
    {
      this.cfg, this.start := cfg, start;
      s, trace := Init(cfg, start), [];
      this.rounds, this.faults, this.gaps, this.dropped := rounds, faults, gaps, dropped;
      this.failures, this.misses, this.finals := 0, 0, 0;
    }

    /** Every state a piece of code can see here is a state of the protocol. */
    lemma IsReachable()
      requires Valid()
      ensures Reachable(cfg, s) && Inv(cfg, s)
    {
      ReachableInv(cfg, s);
    }

    lemma Shape()
      requires Valid()
      ensures s.history != [] && Current(s.history).status in {Scheduled, Open, Closed}
      ensures |s.pipe.logs| == |s.pipe.committed| == cfg.partitions
    {
      IsReachable();
    }

    lemma ClosedIsExact()
      requires Valid() && IsClosed(s)
      ensures AllHypotheses(cfg) ==> Exact(cfg, s)
    {
      IsReachable();
    }

    lemma StaysClosed(a: Action)
      requires Valid() && Enabled(cfg, s, a)
      ensures IsClosed(s) ==> IsClosed(Next(cfg, s, a))
    {
      IsReachable();
      ClosedStays(cfg, s, a);
    }

    /** One atomic action. */
    method Perform(a: Action)
      requires Valid() && Enabled(cfg, s, a)
      modifies this`s, this`trace
      ensures Valid() && s == Next(cfg, old(s), a) && trace == old(trace) + [a]
    {
      RunsAppend(cfg, Init(cfg, start), trace, a);
      trace := trace + [a];
      s := Next(cfg, s, a);
    }

    /** One action of somebody else. */
    method MoveOther(a: Action, me: Actor)
      requires Valid() && ActorOf(a) != me && Enabled(cfg, s, a)
      modifies this`s, this`trace
      ensures Valid()
      ensures old(trace) <= trace && ActionsOf(trace, me) == ActionsOf(old(trace), me)
      ensures Undisturbed(old(s), s, me) && old(s.now) <= s.now
      ensures old(IsClosed(s)) ==> IsClosed(s)
    {
      match me {
        case OfSnapshotter(id) => OthersDisturbNoSnapshotter(cfg, s, a, id);
        case OfLoop(c) => OthersDisturbNoLoop(cfg, s, a, c);
        case OfOthers =>
        case _ => OthersKeepCopies(cfg, s, a, me);
      }
      ActionsOfOneMore(trace, a, me);
      TimeOnlyPasses(cfg, s, a);
      StaysClosed(a);
      Perform(a);
    }

    /** The others take their turn. */
    method Interfere(me: Actor)
      requires Valid()
      modifies this`s, this`trace, this`rounds
      ensures Valid()
      ensures old(trace) <= trace && ActionsOf(trace, me) == ActionsOf(old(trace), me)
      ensures Undisturbed(old(s), s, me) && old(s.now) <= s.now
      ensures old(IsClosed(s)) ==> IsClosed(s)
    {
      if rounds != [] {
        var moves := rounds[0];
        rounds := rounds[1..];
        for i := 0 to |moves|
          invariant Valid() && old(trace) <= trace
          invariant ActionsOf(trace, me) == ActionsOf(old(trace), me)
          invariant Undisturbed(old(s), s, me) && old(s.now) <= s.now
          invariant old(IsClosed(s)) ==> IsClosed(s)
        {
          if ActorOf(moves[i]) != me && Enabled(cfg, s, moves[i]) {
            MoveOther(moves[i], me);
          }
        }
      }
    }

    /** Whether the next call fails. */
    method Fails() returns (failed: bool)
      modifies this`faults, this`failures
      ensures failures == old(failures) + (if failed then 1 else 0)
      ensures |faults| <= old(|faults|) && (failed ==> |faults| < old(|faults|))
    {
      failed := faults != [] && faults[0];
      failures := failures + (if failed then 1 else 0);
      if faults != [] {
        faults := faults[1..];
      }
    }

    /** Whether the next lag reading finds the lag unknown; it never does where the hypothesis says so. */
    method LagUnknown() returns (unknown: bool)
      modifies this`gaps
      ensures cfg.hyp.knownLags ==> !unknown
    {
      unknown := gaps != [] && gaps[0] && !cfg.hyp.knownLags;
      if gaps != [] {
        gaps := gaps[1..];
      }
    }

    /** Whether the lookup budget runs out before the configuration of the poll turns up. */
    method LookupFails() returns (missing: bool)
      modifies this`dropped, this`misses
      ensures cfg.hyp.lookupInTime && !IsClosed(s) ==> !missing
      ensures misses == old(misses) + (if missing then 1 else 0)
    {
      missing := dropped != [] && dropped[0] && (IsClosed(s) || !cfg.hyp.lookupInTime);
      misses := misses + (if missing then 1 else 0);
      if dropped != [] {
        dropped := dropped[1..];
      }
    }

    /** Whether the store's error is one that is not retried. */
    method ErrorIsFinal() returns (yes: bool)
      modifies this`dropped, this`finals
      ensures cfg.hyp.passingErrors ==> !yes
      ensures finals == old(finals) + (if yes then 1 else 0)
    {
      yes := dropped != [] && dropped[0] && !cfg.hyp.passingErrors;
      finals := finals + (if yes then 1 else 0);
      if dropped != [] {
        dropped := dropped[1..];
      }
    }

    /** An action of the code itself, after the others had their turn. */
    method Step(me: Actor, a: Action)
      requires Valid() && ActorOf(a) == me && Enabled(cfg, s, a)
      modifies this`s, this`trace
      ensures Valid() && s == Next(cfg, old(s), a)
      ensures old(trace) <= trace && ActionsOf(trace, me) == ActionsOf(old(trace), me) + [a]
    {
      ActionsOfOneMore(trace, a, me);
      Perform(a);
    }
  }
}
