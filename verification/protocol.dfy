/**
 * The vote-counting pipeline of one poll as a state machine: producers append to partitions, consumers
 * apply records at least once, snapshotters read the shards one by one and finalize, admins open and
 * close, viewers read results. Every step is one atomic action of the real system; any interleaving of
 * enabled steps is a run.
 */
module Protocol {
  import opened Aggregates
  import opened Ledgers
  import opened Texts
  import opened Keys
  import opened Domain

  /** What the code alone does not give; each flag switches one hypothesis about the environment on. */
  datatype Hypotheses = Hypotheses(
    cleanErrors: bool,    // a fetch that reports an error carries no records
    timelyAppends: bool,  // a countable record is in the log before closesAt + grace
    fixedWindow: bool,    // nobody closes the poll by hand
    knownLags: bool,      // the lag of every partition is known when it is read
    lookupInTime: bool,   // while the poll is listed, its configuration is found within the lookup budget
    passingErrors: bool   // every error the store answers a well-formed vote with is one that is retried
  )

  /** A shard count: rows outside 1..16384 are refused when they are read. */
  type Count = n: nat | n > 0 witness 1

  datatype Config = Config(
    poll: PollId, shards: Count, hash: VoterId -> nat,
    partitions: nat, opensAt: Time, closesAt: Time, grace: nat, hyp: Hypotheses)

  function ShardOf(cfg: Config): VoterId -> nat {
    v => ShardFor(cfg.hash, v, cfg.shards)
  }

  function AllShardsOf(cfg: Config): set<nat> {
    NumbersBelow(cfg.shards)
  }

  // ---- Records ----

  datatype Record =
    | Malformed
    | Message(poll: PollId, voter: string, choices: seq<uint8>, producedAt: Time)

  /** The vote a record stands for when it passes every check of the consumer, and None otherwise. */
  function BallotOf(cfg: Config, rec: Record): Option<Vote> {
    match rec
    case Malformed => None
    case Message(poll, voter, choices, producedAt) =>
      var v := ParseVoterId(voter);
      if poll == cfg.poll && Contains(Window(Open, cfg.opensAt, cfg.closesAt), producedAt)
         && v.Some? && choices != [] && Distinct(choices)
      then Some(Vote(v.value, OptionsOf(choices)))
      else None
  }

  // ---- Log, consumers and the counted votes ----

  datatype Slot = Slot(part: nat, off: nat)

  /**
   * One member of the consumer group. Records of the current batch move from batch (not launched) to
   * running (a worker has them) and out; dropped holds those abandoned because of cancellation.
   */
  datatype Member = Member(
    cancelled: bool, position: map<nat, nat>, batch: set<Slot>, running: set<Slot>, dropped: set<Slot>)

  /** done: records that reached a terminal outcome. sent: votes whose script call was ever issued. */
  datatype Pipe = Pipe(
    logs: seq<seq<Record>>, committed: seq<nat>, members: map<nat, Member>,
    done: set<Slot>, sent: set<Vote>, ledger: Ledger)

  predicate ValidSlot(p: Pipe, s: Slot) {
    s.part < |p.logs| && s.off < |p.logs[s.part]|
  }

  function RecordAt(p: Pipe, s: Slot): Record
    requires ValidSlot(p, s)
  {
    p.logs[s.part][s.off]
  }

  function Fetched(position: map<nat, nat>, upTo: map<nat, nat>): set<Slot> {
    set p, o: nat | p in upTo && p in position && position[p] <= o < upTo[p] :: Slot(p, o)
  }

  datatype ConsumerAction =
    | JoinGroup
    | Assign(part: nat)                  // rebalance: resume from the committed offset
    | Revoke(part: nat)
    | Fetch(upTo: map<nat, nat>)         // one poll of the broker, new head per partition
    | SkipFetch(upTo: map<nat, nat>)     // a poll that reported an error: backed off, nothing handled
    | Launch(slot: Slot)                 // a worker takes a record
    | Leave(slot: Slot)                  // cancelled before a worker was free
    | Send(slot: Slot)                   // an attempt: the script call is issued
    | Reply(slot: Slot)                  // the script answered: counted or already counted
    | Reject(slot: Slot)                 // permanently refused: out of the window, bad voter, bad choices
    | NotFound(slot: Slot)               // refused: no configuration of the poll within the lookup budget
    | GiveUp(slot: Slot)                 // refused: the store answered with an error that is not retried
    | Interrupt(slot: Slot)              // cancelled while retrying
    | Commit(parts: set<nat>)            // after every worker has returned
    | Cancel
    | Crash

  predicate HeadsAdvance(p: Pipe, m: Member, upTo: map<nat, nat>) {
    forall q :: q in upTo ==> q in m.position && q < |p.logs| && m.position[q] <= upTo[q] <= |p.logs[q]|
  }

  predicate ConsumerEnabled(cfg: Config, p: Pipe, closed: bool, c: nat, a: ConsumerAction) {
    if a.JoinGroup? then c !in p.members
    else
      && c in p.members
      && var m := p.members[c];
         match a
         case JoinGroup => false
         case Assign(q) => q < |p.logs| && q < |p.committed|
         case Revoke(q) => true
         case Fetch(upTo) => m.batch == {} && m.running == {} && !m.cancelled && HeadsAdvance(p, m, upTo)
         case SkipFetch(upTo) =>
           && m.batch == {} && m.running == {} && !m.cancelled && HeadsAdvance(p, m, upTo)
           && (cfg.hyp.cleanErrors ==> Fetched(m.position, upTo) == {})
         case Launch(s) => s in m.batch
         case Leave(s) => s in m.batch && m.cancelled
         case Send(s) => s in m.running && ValidSlot(p, s) && BallotOf(cfg, RecordAt(p, s)).Some?
         case Reply(s) =>
           && s in m.running && ValidSlot(p, s)
           && var b := BallotOf(cfg, RecordAt(p, s));
              b.Some? && b.value in p.sent && b.value.voter in p.ledger
         case Reject(s) => s in m.running && ValidSlot(p, s) && BallotOf(cfg, RecordAt(p, s)).None?
         // A poll that has been closed leaves the config cache, and its late duplicates are refused.
         case NotFound(s) => s in m.running && ValidSlot(p, s) && (closed || !cfg.hyp.lookupInTime)
         case GiveUp(s) => s in m.running && ValidSlot(p, s) && !cfg.hyp.passingErrors
         case Interrupt(s) => s in m.running && m.cancelled
         case Commit(parts) =>
           && m.batch == {} && m.running == {} && !m.cancelled && parts <= m.position.Keys
           && |p.committed| == |p.logs| && forall q :: q in parts ==> q < |p.logs|
         case Cancel => true
         case Crash => true
  }

  function WithMember(p: Pipe, c: nat, m: Member): Pipe {
    p.(members := p.members[c := m])
  }

  function ConsumerNext(cfg: Config, p: Pipe, closed: bool, c: nat, a: ConsumerAction): Pipe
    requires ConsumerEnabled(cfg, p, closed, c, a)
  {
    if a.JoinGroup? then WithMember(p, c, Member(false, map[], {}, {}, {}))
    else
      var m := p.members[c];
      match a
      case JoinGroup => p
      case Assign(q) => WithMember(p, c, m.(position := m.position[q := p.committed[q]]))
      case Revoke(q) => WithMember(p, c, m.(position := m.position - {q}))
      case Fetch(upTo) =>
        WithMember(p, c, m.(batch := Fetched(m.position, upTo), position := m.position + upTo))
      case SkipFetch(upTo) => WithMember(p, c, m.(position := m.position + upTo))
      case Launch(s) => WithMember(p, c, m.(batch := m.batch - {s}, running := m.running + {s}))
      case Leave(s) => WithMember(p, c, m.(batch := m.batch - {s}, dropped := m.dropped + {s}))
      case Send(s) => p.(sent := p.sent + {BallotOf(cfg, RecordAt(p, s)).value})
      case Reply(s) => WithMember(p, c, m.(running := m.running - {s})).(done := p.done + {s})
      case Reject(s) => WithMember(p, c, m.(running := m.running - {s})).(done := p.done + {s})
      case NotFound(s) => WithMember(p, c, m.(running := m.running - {s})).(done := p.done + {s})
      case GiveUp(s) => WithMember(p, c, m.(running := m.running - {s})).(done := p.done + {s})
      case Interrupt(s) => WithMember(p, c, m.(running := m.running - {s}, dropped := m.dropped + {s}))
      case Commit(parts) =>
        p.(committed := seq(|p.committed|, q requires 0 <= q < |p.committed| =>
             if q in parts && q in m.position then m.position[q] else p.committed[q]))
      case Cancel => WithMember(p, c, m.(cancelled := true))
      case Crash => p.(members := p.members - {c})
  }

  // ---- The poll row ----

  datatype Row = Row(status: Status, opensAt: Time, closesAt: Time, version: nat)

  function WindowOf(r: Row): Window {
    Window(r.status, r.opensAt, r.closesAt)
  }

  function Current(history: seq<Row>): Row
    requires history != []
  {
    history[|history| - 1]
  }

  /** UPDATE ... SET status, version = version + 1 WHERE version = the caller's copy. */
  function CasStatus(history: seq<Row>, to: Status, version: nat): seq<Row>
    requires history != []
  {
    var r := Current(history);
    if r.version == version then history + [r.(status := to, version := r.version + 1)] else history
  }

  /** UPDATE ... SET closes_at = now(), version = version + 1 WHERE version = the caller's copy. */
  function CasClosesAt(history: seq<Row>, now: Time, version: nat): seq<Row>
    requires history != []
  {
    var r := Current(history);
    if r.version == version then history + [r.(closesAt := now, version := r.version + 1)] else history
  }

  // ---- Snapshotters ----

  /** Where a snapshotter stands in its handling of the poll; row is the copy it listed. */
  datatype Snap =
    | Listed(row: Row)
    | Handling(row: Row, now: Time)
    | Reading(row: Row, now: Time, final: bool, unread: set<nat>, acc: Aggregate, from: Ledger)
    | Merging(row: Row, now: Time, final: bool, latest: Aggregate, prev: Aggregate)
    | Ticked(row: Row, now: Time)
    | Lagging(row: Row, now: Time, committed: map<nat, nat>, ends: map<nat, nat>)
    | Snapshotted(row: Row, now: Time)

  datatype SnapAction =
    | List                       // the poll is in the list of active polls
    | Clock                      // s.now()
    | OpenPoll                   // scheduled open: compare-and-swap
    | BeginTick                  // issue the shard reads of TickOnce
    | ReadShard(shard: nat)      // one shard's reply; they may come in any order
    | GetPrev                    // results.Get
    | Upsert                     // results.Upsert of fresh.MergeMax(prev)
    | GracePassed                // not before closesAt + grace
    | ReadCommitted(part: nat)   // the lag reader's two reads per partition
    | ReadEnd(part: nat)
    | ReadUnknown(part: nat)     // a partition whose lag is not known is skipped
    | BeginFinal                 // total lag zero: Finalize starts its own TickOnce
    | ClosePoll                  // compare-and-swap to closed
    | Abort                      // any error, early return or crash

  function LagAt(x: Snap, q: nat): nat
    requires x.Lagging?
  {
    if q in x.ends && q in x.committed && x.ends[q] > x.committed[q] then x.ends[q] - x.committed[q] else 0
  }

  /** The sum of the positive lags of the partitions below n. */
  function TotalLag(x: Snap, n: nat): nat
    requires x.Lagging?
  {
    if n == 0 then 0 else TotalLag(x, n - 1) + LagAt(x, n - 1)
  }

  function ShardView(cfg: Config, l: Ledger, k: nat): Aggregate {
    ViewOf(InShards(l, ShardOf(cfg), {k}))
  }

  // ---- The whole system ----

  datatype Answer = Answer(final: bool, agg: Aggregate)

  /** written: the fresh reads that reached the result table, in order. */
  datatype State = State(
    now: Time, pipe: Pipe, history: seq<Row>, snaps: map<nat, Snap>, admins: map<nat, Row>,
    result: Aggregate, written: seq<Aggregate>, viewers: map<nat, Row>, answers: seq<Answer>)

  datatype AdminAction =
    | Load                   // GetBySlug
    | OpenByHand
    | CloseByHand(at: Time)  // at: the clock reading of the check, taken at some earlier moment

  datatype ViewerAction = ReadRow | ReadResult

  datatype Action =
    | Pass(dt: nat)
    | Append(part: nat, rec: Record)
    | Consume(c: nat, step: ConsumerAction)
    | Script(vote: Vote)     // a script call runs in Redis, however late and however often
    | Snapshot(id: nat, act: SnapAction)
    | Administer(who: nat, deed: AdminAction)
    | Look(viewer: nat, look: ViewerAction)

  function Init(cfg: Config, start: Time): State {
    State(start,
          Pipe(seq(cfg.partitions, _ => []), seq(cfg.partitions, _ => 0), map[], {}, {}, map[]),
          [Row(Scheduled, cfg.opensAt, cfg.closesAt, 1)], map[], map[],
          EMPTY, [], map[], [])
  }

  predicate IsClosed(s: State) {
    s.history != [] && Current(s.history).status == Closed
  }

  predicate SnapEnabled(cfg: Config, s: State, id: nat, a: SnapAction) {
    && s.history != []
    && if a.List? then id !in s.snaps && Current(s.history).status in {Scheduled, Open}
       else
         && id in s.snaps
         && var x := s.snaps[id];
            match a
            case List => false
            case Clock => x.Listed?
            case OpenPoll => x.Handling? && ShouldOpenAt(WindowOf(x.row), x.now)
            case BeginTick => x.Handling? && !ShouldOpenAt(WindowOf(x.row), x.now) && x.row.status == Open
            case ReadShard(k) => x.Reading? && k in x.unread
            case GetPrev => x.Reading? && x.unread == {}
            case Upsert => x.Merging?
            case GracePassed => x.Ticked? && x.now >= x.row.closesAt + cfg.grace
            case ReadCommitted(q) => x.Lagging? && q < |s.pipe.committed| && q !in x.committed
            case ReadEnd(q) => x.Lagging? && q < |s.pipe.logs| && q !in x.ends
            case ReadUnknown(q) => x.Lagging? && !cfg.hyp.knownLags && q !in x.committed && q !in x.ends
            case BeginFinal =>
              && x.Lagging? && (forall q: nat :: q < cfg.partitions ==> q in x.committed && q in x.ends)
              && TotalLag(x, cfg.partitions) == 0
            case ClosePoll => x.Snapshotted?
            case Abort => true
  }

  function WithSnap(s: State, id: nat, x: Snap): State {
    s.(snaps := s.snaps[id := x])
  }

  function SnapNext(cfg: Config, s: State, id: nat, a: SnapAction): State
    requires SnapEnabled(cfg, s, id, a)
  {
    if a.List? then WithSnap(s, id, Listed(Current(s.history)))
    else
      var x := s.snaps[id];
      match a
      case List => s
      case Clock => WithSnap(s, id, Handling(x.row, s.now))
      case OpenPoll => s.(snaps := s.snaps - {id}, history := CasStatus(s.history, Open, x.row.version))
      case BeginTick =>
        WithSnap(s, id, Reading(x.row, x.now, false, AllShardsOf(cfg), EMPTY, s.pipe.ledger))
      case ReadShard(k) =>
        WithSnap(s, id, x.(unread := x.unread - {k}, acc := Sum(x.acc, ShardView(cfg, s.pipe.ledger, k))))
      case GetPrev => WithSnap(s, id, Merging(x.row, x.now, x.final, x.acc, s.result))
      case Upsert =>
        var next := if x.final then Snapshotted(x.row, x.now) else Ticked(x.row, x.now);
        WithSnap(s, id, next).(result := Join(s.result, Join(x.latest, x.prev)),
                               written := s.written + [x.latest])
      case GracePassed => WithSnap(s, id, Lagging(x.row, x.now, map[], map[]))
      case ReadCommitted(q) => WithSnap(s, id, x.(committed := x.committed[q := s.pipe.committed[q]]))
      case ReadEnd(q) => WithSnap(s, id, x.(ends := x.ends[q := |s.pipe.logs[q]|]))
      case ReadUnknown(q) => WithSnap(s, id, x.(committed := x.committed[q := 0], ends := x.ends[q := 0]))
      case BeginFinal =>
        WithSnap(s, id, Reading(x.row, x.now, true, AllShardsOf(cfg), EMPTY, s.pipe.ledger))
      case ClosePoll => s.(snaps := s.snaps - {id}, history := CasStatus(s.history, Closed, x.row.version))
      case Abort => s.(snaps := s.snaps - {id})
  }

  predicate Enabled(cfg: Config, s: State, a: Action) {
    match a
    case Pass(dt) => true
    case Append(q, rec) =>
      && q < |s.pipe.logs|
      && (cfg.hyp.timelyAppends && BallotOf(cfg, rec).Some? ==> s.now < cfg.closesAt + cfg.grace)
    case Consume(c, step) => ConsumerEnabled(cfg, s.pipe, IsClosed(s), c, step)
    case Script(v) => v in s.pipe.sent
    case Snapshot(id, act) => SnapEnabled(cfg, s, id, act)
    case Administer(who, deed) =>
      && s.history != []
      && (match deed
          case Load => true
          case OpenByHand => who in s.admins && CanTransitionTo(s.admins[who].status, Open)
          case CloseByHand(at) =>
            !cfg.hyp.fixedWindow && who in s.admins && at <= s.now && IsOpenAt(WindowOf(s.admins[who]), at))
    case Look(viewer, look) =>
      s.history != [] && (look.ReadResult? ==> viewer in s.viewers)
  }

  function Next(cfg: Config, s: State, a: Action): State
    requires Enabled(cfg, s, a)
  {
    match a
    case Pass(dt) => s.(now := s.now + dt)
    case Append(q, rec) => s.(pipe := s.pipe.(logs := s.pipe.logs[q := s.pipe.logs[q] + [rec]]))
    case Consume(c, step) => s.(pipe := ConsumerNext(cfg, s.pipe, IsClosed(s), c, step))
    case Script(v) => s.(pipe := s.pipe.(ledger := ApplyVote(s.pipe.ledger, v)))
    case Snapshot(id, act) => SnapNext(cfg, s, id, act)
    case Administer(who, deed) =>
      (match deed
       case Load => s.(admins := s.admins[who := Current(s.history)])
       case OpenByHand =>
         s.(admins := s.admins - {who}, history := CasStatus(s.history, Open, s.admins[who].version))
       case CloseByHand(at) =>
         s.(admins := s.admins - {who}, history := CasClosesAt(s.history, s.now, s.admins[who].version)))
    case Look(viewer, look) =>
      (match look
       case ReadRow => s.(viewers := s.viewers[viewer := Current(s.history)])
       case ReadResult =>
         s.(viewers := s.viewers - {viewer},
            answers := s.answers + [Answer(s.viewers[viewer].status in {Closed, Archived}, s.result)]))
  }

  /** A run: every action enabled where it is taken. */
  ghost predicate Runs(cfg: Config, s: State, trace: seq<Action>)
    decreases |trace|
  {
    trace != [] ==> Enabled(cfg, s, trace[0]) && Runs(cfg, Next(cfg, s, trace[0]), trace[1..])
  }

  ghost function After(cfg: Config, s: State, trace: seq<Action>): State
    requires Runs(cfg, s, trace)
    decreases |trace|
  {
    if trace == [] then s else After(cfg, Next(cfg, s, trace[0]), trace[1..])
  }
}
