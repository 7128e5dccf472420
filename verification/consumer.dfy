/** The consumer's own loop: poll the broker, hand every record to a worker, wait for all of them, commit. */
module Consumers {
  import opened Ledgers
  import opened Texts
  import opened Protocol
  import opened Invariants
  import opened Worlds

  /** How one turn of the loop ended. */
  datatype Turn = Stopped | Skipped | CommitFailed | Committed

  /** How one attempt ended: answered, failed for now, or failed for good. */
  datatype Ended = Answered | InHand | Final

  class Consumer {
    const c: nat
    const w: World

    constructor (c: nat, w: World)
      ensures this.c == c && this.w == w
    {
      this.c, this.w := c, w;
    }

    /** The member is in the group, and these records are with it or finished. */
    ghost predicate Tracks(slots: set<Slot>)
      reads w
    {
      w.Valid() && Accounted(w.s.pipe, c, slots)
    }

    ghost function Member(): Member
      requires c in w.s.pipe.members
      reads w
    {
      w.s.pipe.members[c]
    }

    /** One record of EachRecord: a free worker takes it, or, once cancelled, it may be passed over. */
    method Hand(slot: Slot, ghost slots: set<Slot>)
      requires Tracks(slots) && slot in Member().batch
      modifies w
      ensures Tracks(slots) && Member().batch == old(Member().batch) - {slot}
      ensures old(w.trace) <= w.trace
    {
      w.Interfere(OfLoop(c));
      var passOver := w.Fails();
      var act := if passOver && w.s.pipe.members[c].cancelled then Leave(slot) else Launch(slot);
      MoveIsAccounted(w.cfg, w.s.pipe, IsClosed(w.s), c, act, slots);
      w.Step(OfLoop(c), Consume(c, act));
    }

    /** handleBatch up to the wait: every record of the fetch is handed over or passed over. */
    method HandAll(ghost slots: set<Slot>)
      requires Tracks(slots)
      modifies w
      ensures Tracks(slots) && Member().batch == {} && old(w.trace) <= w.trace
    {
      var rest := w.s.pipe.members[c].batch;
      while rest != {}
        invariant Tracks(slots) && Member().batch == rest && old(w.trace) <= w.trace
        decreases rest
      {
        var slot :| slot in rest;
        Hand(slot, slots);
        rest := rest - {slot};
      }
    }

    /** One action of a worker. */
    method Work(act: ConsumerAction, ghost slots: set<Slot>)
      requires Tracks(slots)
      requires act.Interrupt? || act.Reject? || act.NotFound? || act.GiveUp? || act.Send? || act.Reply?
      requires ConsumerEnabled(w.cfg, w.s.pipe, IsClosed(w.s), c, act)
      modifies w`s, w`trace
      ensures Tracks(slots) && old(w.trace) <= w.trace
      ensures w.s.pipe == ConsumerNext(w.cfg, old(w.s.pipe), old(IsClosed(w.s)), c, act)
    {
      MoveIsAccounted(w.cfg, w.s.pipe, IsClosed(w.s), c, act, slots);
      w.Perform(Consume(c, act));
    }

    /**
     * handle and Count for one record: refused when the poll's configuration does not turn up or a check fails, and
     * otherwise tried until an attempt is answered, an error is final, or the worker is stopped. The record ends up
     * finished, or dropped by a cancelled member.
     */
    method Finish(slot: Slot, ghost slots: set<Slot>)
      requires Tracks(slots) && slot in Member().running && Member().batch == {}
      modifies w
      ensures Tracks(slots) && Member().batch == {} && old(w.trace) <= w.trace
      ensures Member().running <= old(Member().running) - {slot}
      ensures slot in w.s.pipe.done || (slot in Member().dropped && Member().cancelled)
    {
      ghost var all := slots + {slot};
      LookUp(slot, all);
      while slot in w.s.pipe.members[c].running
        invariant Tracks(all) && Member().batch == {} && Member().running <= old(Member().running)
        invariant old(w.trace) <= w.trace
        decreases |w.faults|, slot in w.s.pipe.members[c].running
      {
        Advance(slot, all);
      }
    }

    /** The poll's configuration: without it the record is refused, unless it could not even be read. */
    method LookUp(slot: Slot, ghost slots: set<Slot>)
      requires Tracks(slots) && slot in Member().running
      modifies w
      ensures Tracks(slots) && Member().batch == old(Member().batch) && old(w.trace) <= w.trace
      ensures Member().running in {old(Member().running), old(Member().running) - {slot}}
      ensures slot !in Member().running ==> old(IsClosed(w.s)) || !w.cfg.hyp.lookupInTime
      ensures slot !in Member().running ==> slot in w.s.pipe.done && w.s.pipe.ledger == old(w.s.pipe.ledger)
      ensures slot !in Member().running <==>
                w.misses > old(w.misses) && ValidSlot(w.s.pipe, slot) && !RecordAt(w.s.pipe, slot).Malformed?
    {
      RunningIsValid(w, c, slot);
      var missing := w.LookupFails();
      if missing && !RecordAt(w.s.pipe, slot).Malformed? {
        Work(NotFound(slot), slots);
      }
    }

    /** The stop, the refusal, or one attempt; after a failed one the others have their turn before the next. */
    method Advance(slot: Slot, ghost slots: set<Slot>)
      requires Tracks(slots) && slot in Member().running
      modifies w
      ensures Tracks(slots) && Member().batch == old(Member().batch) && old(w.trace) <= w.trace
      ensures Member().running <= old(Member().running)
      ensures |w.faults| <= old(|w.faults|) && (slot in Member().running ==> |w.faults| < old(|w.faults|))
      ensures old(Member().cancelled) ==> slot in Member().dropped && w.s.pipe.ledger == old(w.s.pipe.ledger)
    {
      RunningIsValid(w, c, slot);
      var ballot := BallotOf(w.cfg, RecordAt(w.s.pipe, slot));
      if w.s.pipe.members[c].cancelled {
        Work(Interrupt(slot), slots);
      } else if ballot.None? {
        Work(Reject(slot), slots);
      } else {
        var e := Attempt(slot, ballot.value, slots);
        if e == InHand {
          w.Interfere(OfLoop(c));
        }
      }
    }

    /**
     * One attempt to count a record. Answered, it leaves the voter counted and the record finished. Failed, whether or
     * not the script ran, it leaves the record in hand for the next one, unless the error is final.
     */
    method Attempt(slot: Slot, v: Vote, ghost slots: set<Slot>) returns (e: Ended)
      requires Tracks(slots) && slot in Member().running && ValidSlot(w.s.pipe, slot)
      requires BallotOf(w.cfg, RecordAt(w.s.pipe, slot)) == Some(v)
      modifies w
      ensures Tracks(slots) && Member().batch == old(Member().batch) && old(w.trace) <= w.trace
      ensures |w.faults| <= old(|w.faults|) && (e == InHand ==> |w.faults| < old(|w.faults|))
      ensures e == Answered <==> w.failures == old(w.failures)
      ensures e == Answered ==> v.voter in w.s.pipe.ledger
      ensures e == Final ==> !w.cfg.hyp.passingErrors
      ensures e == Final <==> w.finals > old(w.finals)
      ensures e != InHand ==> slot in w.s.pipe.done && Member().running == old(Member().running) - {slot}
      ensures e == InHand ==> Member().running == old(Member().running)
      ensures w.s.pipe.ledger in {old(w.s.pipe.ledger), ApplyVote(old(w.s.pipe.ledger), v)}
    {
      Work(Send(slot), slots);
      var failed := w.Fails();
      if failed {
        e := Fail(slot, v, slots);
      } else {
        e := Answered;
        RunScript(v, slots);
        Work(Reply(slot), slots);
      }
    }

    /** The call failed: perhaps only its reply was lost, and perhaps the error is final. */
    method Fail(slot: Slot, v: Vote, ghost slots: set<Slot>) returns (e: Ended)
      requires Tracks(slots) && slot in Member().running && ValidSlot(w.s.pipe, slot) && v in w.s.pipe.sent
      modifies w
      ensures Tracks(slots) && Member().batch == old(Member().batch) && old(w.trace) <= w.trace
      ensures |w.faults| <= old(|w.faults|) && w.failures >= old(w.failures)
      ensures e == if slot in Member().running then InHand else Final
      ensures e == Final <==> w.finals > old(w.finals)
      ensures e == Final ==>
                !w.cfg.hyp.passingErrors && slot in w.s.pipe.done && Member().running == old(Member().running) - {slot}
      ensures e == InHand ==> Member().running == old(Member().running)
      ensures w.s.pipe.ledger in {old(w.s.pipe.ledger), ApplyVote(old(w.s.pipe.ledger), v)}
    {
      e := InHand;
      var lost := w.Fails();
      if lost {
        RunScript(v, slots);
      }
      var final := w.ErrorIsFinal();
      if final {
        e := Final;
        Work(GiveUp(slot), slots);
      }
    }

    /** The script call takes effect in Redis. */
    method RunScript(v: Vote, ghost slots: set<Slot>)
      requires Tracks(slots) && v in w.s.pipe.sent
      modifies w`s, w`trace
      ensures Tracks(slots) && old(w.trace) <= w.trace
      ensures w.s.pipe == old(w.s.pipe).(ledger := ApplyVote(old(w.s.pipe.ledger), v))
    {
      w.Perform(Script(v));
    }

    /** wg.Wait: workers keep running beside everybody else until the last one has returned. */
    method AwaitWorkers(ghost slots: set<Slot>)
      requires Tracks(slots) && Member().batch == {}
      modifies w
      ensures Tracks(slots) && Member().batch == {} && Member().running == {} && old(w.trace) <= w.trace
    {
      while w.s.pipe.members[c].running != {}
        invariant Tracks(slots) && Member().batch == {} && old(w.trace) <= w.trace
        decreases Member().running
      {
        w.Interfere(OfLoop(c));
        if w.s.pipe.members[c].running != {} {
          var slot :| slot in w.s.pipe.members[c].running;
          Finish(slot, slots);
        }
      }
    }

    /** The commit after the batch; it fails when the context has been cancelled. */
    method CommitBatch(ghost slots: set<Slot>) returns (ok: bool)
      requires Tracks(slots) && Member().batch == {} && Member().running == {}
      modifies w
      ensures Tracks(slots) && Member().batch == {} && Member().running == {} && old(w.trace) <= w.trace
      ensures ok ==> slots <= w.s.pipe.done
      ensures !ok ==> Member().cancelled
      ensures ok ==> forall q :: q in Member().position ==>
                q < |w.s.pipe.committed| && w.s.pipe.committed[q] == Member().position[q]
    {
      w.Interfere(OfLoop(c));
      ok := !w.s.pipe.members[c].cancelled;
      if ok {
        CommitIsEnabled(w, c);
        w.Step(OfLoop(c), Consume(c, Commit(w.s.pipe.members[c].position.Keys)));
      }
    }

    /** The heads the broker may answer with; anything else counts as an answer without records. */
    method PollBroker(answer: map<nat, nat>) returns (upTo: map<nat, nat>)
      requires w.Valid() && c in w.s.pipe.members
      ensures HeadsAdvance(w.s.pipe, Member(), upTo)
      ensures upTo == HeadsOf(w.s.pipe, Member(), answer)
    {
      upTo := if HeadsAdvance(w.s.pipe, w.s.pipe.members[c], answer) then answer else map[];
    }

    /**
     * One turn of Run. A committed turn has finished every record it fetched, and its offsets are those of
     * the records it finished; a cancelled turn commits nothing. A fetch that reports an error is skipped whole,
     * with whatever it carried.
     */
    method RunOnce(answer: map<nat, nat>) returns (t: Turn, ghost fetched: set<Slot>, ghost seen: Pipe)
      requires Tracks({}) && Member().batch == {} && Member().running == {}
      modifies w
      ensures Tracks(fetched) && Member().batch == {} && Member().running == {} && old(w.trace) <= w.trace
      ensures t == Committed ==> fetched <= w.s.pipe.done
      ensures t == Committed ==> forall q :: q in Member().position ==>
                q < |w.s.pipe.committed| && w.s.pipe.committed[q] == Member().position[q]
      ensures t in {Stopped, CommitFailed} ==> Member().cancelled
      ensures t in {Stopped, Skipped} ==> fetched == {}
      ensures t in {Committed, CommitFailed} ==>
                && c in seen.members
                && fetched == Fetched(seen.members[c].position, HeadsOf(seen, seen.members[c], answer))
      ensures t == Skipped ==> w.failures > old(w.failures)
    {
      fetched := {};
      w.Interfere(OfLoop(c));
      seen := w.s.pipe;
      if w.s.pipe.members[c].cancelled {
        return Stopped, fetched, seen;
      }
      var failed := w.Fails();
      var upTo := PollBroker(answer);
      if failed {
        if w.cfg.hyp.cleanErrors && Fetched(w.s.pipe.members[c].position, upTo) != {} {
          upTo := map[];
        }
        w.Step(OfLoop(c), Consume(c, SkipFetch(upTo)));
        return Skipped, fetched, seen;
      }
      t, fetched := HandleFetch(upTo);
    }

    /** handleBatch and the commit after it. */
    method HandleFetch(upTo: map<nat, nat>) returns (t: Turn, ghost fetched: set<Slot>)
      requires Tracks({}) && Member().batch == {} && Member().running == {} && !Member().cancelled
      requires HeadsAdvance(w.s.pipe, Member(), upTo)
      modifies w
      ensures fetched == old(Fetched(Member().position, upTo))
      ensures Tracks(fetched) && Member().batch == {} && Member().running == {} && old(w.trace) <= w.trace
      ensures t == Committed || (t == CommitFailed && Member().cancelled)
      ensures t == Committed ==> fetched <= w.s.pipe.done
      ensures t == Committed ==> forall q :: q in Member().position ==>
                q < |w.s.pipe.committed| && w.s.pipe.committed[q] == Member().position[q]
    {
      fetched := Fetched(w.s.pipe.members[c].position, upTo);
      w.Step(OfLoop(c), Consume(c, Fetch(upTo)));
      HandAll(fetched);
      AwaitWorkers(fetched);
      var ok := CommitBatch(fetched);
      t := if ok then Committed else CommitFailed;
    }
  }

  /** What a poll of the broker brings: its answer, if that moves the heads forward within the logs, or nothing. */
  ghost function HeadsOf(p: Pipe, m: Protocol.Member, answer: map<nat, nat>): map<nat, nat> {
    if HeadsAdvance(p, m, answer) then answer else map[]
  }

  /** A record that changes hands within its member is still accounted for. */
  lemma MoveIsAccounted(cfg: Config, p: Pipe, closed: bool, c: nat, a: ConsumerAction, slots: set<Slot>)
    requires Accounted(p, c, slots) && ConsumerEnabled(cfg, p, closed, c, a)
    requires a.Launch? || a.Leave? || a.Interrupt? || a.Reject? || a.NotFound? || a.GiveUp? || a.Send? || a.Reply?
    ensures Accounted(ConsumerNext(cfg, p, closed, c, a), c, slots)
  {
  }

  lemma RunningIsValid(w: World, c: nat, slot: Slot)
    requires w.Valid()
    requires c in w.s.pipe.members && slot in w.s.pipe.members[c].running
    ensures ValidSlot(w.s.pipe, slot)
  {
    w.IsReachable();
    assert MemberInBounds(w.s.pipe, w.s.pipe.members[c]);
    assert slot in Busy(w.s.pipe.members[c]);
  }

  lemma CommitIsEnabled(w: World, c: nat)
    requires w.Valid() && c in w.s.pipe.members
    ensures |w.s.pipe.committed| == |w.s.pipe.logs|
    ensures forall q :: q in w.s.pipe.members[c].position ==> q < |w.s.pipe.logs|
  {
    w.IsReachable();
    assert MemberInBounds(w.s.pipe, w.s.pipe.members[c]);
  }
}
