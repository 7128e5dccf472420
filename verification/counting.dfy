/** Counting one message: bounded wait for the poll's configuration, checks, and retry until applied. */
module Counting {
  import opened Ledgers
  import opened Texts
  import opened Keys
  import opened Domain
  import opened Protocol
  import opened TallyStore

  const MILLISECOND: int := 1_000_000
  const INITIAL_BACKOFF: int := 20 * MILLISECOND
  const MAX_BACKOFF: int := 2_000 * MILLISECOND

  // ---- Which failures are worth another try ----

  datatype StoreError = Canceled | ClientClosing | RedisReply(message: string, moved: bool, ask: bool) | NoReply

  const TRANSIENT_REPLIES: seq<string> :=
    ["READONLY", "MASTERDOWN", "CLUSTERDOWN", "TRYAGAIN", "LOADING", "OOM", "BUSY", "NOREPLICAS"]

  predicate HasPrefix(s: string, prefix: string) {
    |prefix| <= |s| && s[..|prefix|] == prefix
  }

  /** The replies of a cluster that is failing over, loading, full or busy. */
  ghost predicate TransientText(message: string) {
    || "READONLY" <= message || "MASTERDOWN" <= message || "CLUSTERDOWN" <= message || "TRYAGAIN" <= message
    || "LOADING" <= message || "OOM" <= message || "BUSY" <= message || "NOREPLICAS" <= message
  }

  /** transientReply: a loop over the known prefixes. */
  method TransientReply(message: string) returns (yes: bool)
    ensures yes <==> TransientText(message)
  {
    yes := false;
    for i := 0 to |TRANSIENT_REPLIES|
      invariant yes <==> exists j :: 0 <= j < i && HasPrefix(message, TRANSIENT_REPLIES[j])
    {
      if HasPrefix(message, TRANSIENT_REPLIES[i]) {
        KnownPrefixes(message);
        return true;
      }
    }
    KnownPrefixes(message);
  }

  lemma KnownPrefixes(message: string)
    ensures TransientText(message) <==>
            exists j :: 0 <= j < |TRANSIENT_REPLIES| && HasPrefix(message, TRANSIENT_REPLIES[j])
  {
    assert |TRANSIENT_REPLIES| == 8;
    assert forall j :: 0 <= j < 8 ==> (HasPrefix(message, TRANSIENT_REPLIES[j]) <==> TRANSIENT_REPLIES[j] <= message);
    assert TRANSIENT_REPLIES[0] == "READONLY" && TRANSIENT_REPLIES[1] == "MASTERDOWN";
    assert TRANSIENT_REPLIES[2] == "CLUSTERDOWN" && TRANSIENT_REPLIES[3] == "TRYAGAIN";
    assert TRANSIENT_REPLIES[4] == "LOADING" && TRANSIENT_REPLIES[5] == "OOM";
    assert TRANSIENT_REPLIES[6] == "BUSY" && TRANSIENT_REPLIES[7] == "NOREPLICAS";
  }

  /** An error that may pass: no reply at all, a redirection, or a reply of a cluster in trouble. */
  ghost predicate MayPass(e: StoreError) {
    e.NoReply? || (e.RedisReply? && (e.moved || e.ask || TransientText(e.message)))
  }

  /** transient: stopped or closing first, then the replies, and anything else is worth another try. */
  method IsTransient(e: StoreError) returns (yes: bool)
    ensures yes <==> MayPass(e)
  {
    match e {
      case Canceled => yes := false;
      case ClientClosing => yes := false;
      case RedisReply(message, moved, ask) =>
        var known := TransientReply(message);
        yes := moved || ask || known;
      case NoReply => yes := true;
    }
  }

  /** What one attempt meets. Broken: the store call failed, whether or not the script had run by then. */
  datatype Attempt = BreakerOpen | BreakerBusy | Broken(executed: bool, error: StoreError) | Answered

  /** The breaker refused the call, or the store failed in a way that may pass. */
  ghost predicate Retryable(a: Attempt) {
    a.BreakerOpen? || a.BreakerBusy? || (a.Broken? && MayPass(a.error))
  }

  /** The context or the client is gone, or the store answered with an error that repeating cannot help. */
  ghost predicate Hopeless(a: Attempt) {
    a.Broken? &&
    match a.error
    case Canceled => true
    case ClientClosing => true
    case RedisReply(message, moved, ask) => !moved && !ask && !TransientText(message)
    case NoReply => false
  }

  datatype Outcome = Ok(result: VoteResult) | Failed | Invalid | Interrupted | UnknownPoll | OutOfWindow | BadVoter

  // ---- Retry ----

  /** The first n attempts were all worth repeating. */
  ghost predicate AllRetryable(attempts: seq<Attempt>, n: nat) {
    n <= |attempts| && forall j :: 0 <= j < n ==> Retryable(attempts[j])
  }

  /** The attempt that ends the retrying: the first one that is not worth repeating. */
  ghost predicate EndsAt(attempts: seq<Attempt>, k: nat) {
    k < |attempts| && !Retryable(attempts[k]) && forall j :: 0 <= j < k ==> Retryable(attempts[j])
  }

  /** The script ran in one of the first n attempts. */
  ghost predicate RanBefore(attempts: seq<Attempt>, n: nat) {
    exists j :: 0 <= j < n && j < |attempts| && (attempts[j].Answered? || (attempts[j].Broken? && attempts[j].executed))
  }

  /** Some attempt is answered before one that must not be repeated. */
  ghost predicate Succeeds(attempts: seq<Attempt>) {
    exists k: nat :: EndsAt(attempts, k) && attempts[k].Answered?
  }

  /** ... and the script had not run in any attempt before it. */
  ghost predicate SucceedsAfresh(attempts: seq<Attempt>) {
    exists k: nat :: EndsAt(attempts, k) && attempts[k].Answered? && !RanBefore(attempts, k)
  }

  lemma OnlyEnd(attempts: seq<Attempt>, k: nat)
    requires EndsAt(attempts, k)
    ensures forall j: nat :: EndsAt(attempts, j) ==> j == k
    ensures Succeeds(attempts) <==> attempts[k].Answered?
    ensures SucceedsAfresh(attempts) <==> attempts[k].Answered? && !RanBefore(attempts, k)
  {
  }

  /** The pauses between attempts double from 20 milliseconds until they pass 2 seconds, in nanoseconds. */
  ghost predicate BackoffOk(waits: seq<int>) {
    && (|waits| > 0 ==> waits[0] == 20_000_000)
    && (forall i :: 0 <= i < |waits| - 1 ==>
          waits[i + 1] == if waits[i] < 2_000_000_000 then 2 * waits[i] else waits[i])
    && (forall i :: 0 <= i < |waits| ==> 20_000_000 <= waits[i] < 4_000_000_000)
  }

  ghost predicate NextBackoff(waits: seq<int>, backoff: int) {
    && INITIAL_BACKOFF <= backoff < 2 * MAX_BACKOFF
    && (waits == [] ==> backoff == INITIAL_BACKOFF)
    && (waits != [] ==>
          var last := waits[|waits| - 1]; backoff == if last < MAX_BACKOFF then 2 * last else last)
  }

  lemma PauseOk(waits: seq<int>, backoff: int)
    requires BackoffOk(waits) && NextBackoff(waits, backoff)
    ensures BackoffOk(waits + [backoff])
    ensures NextBackoff(waits + [backoff], if backoff < MAX_BACKOFF then 2 * backoff else backoff)
  {
  }

  /** The ledger after the others' votes, with one more vote taking effect among them at the given place. */
  function Within(l: Ledger, others: seq<Vote>, place: nat, v: Vote): Ledger
    requires place <= |others|
  {
    ApplyAll(ApplyVote(ApplyAll(l, others[..place]), v), others[place..])
  }

  lemma FirstEffect(l: Ledger, others: seq<Vote>, v: Vote)
    ensures Within(l, others, |others|, v) == ApplyVote(ApplyAll(l, others), v)
  {
    assert others[..|others|] == others;
  }

  /** A vote that took effect makes its repeats ineffective, and later votes of others find it there. */
  lemma LaterEffects(l: Ledger, others: seq<Vote>, place: nat, v: Vote, more: seq<Vote>)
    requires place <= |others|
    ensures v.voter in Within(l, others, place, v)
    ensures ApplyAll(Within(l, others, place, v), more) == Within(l, others + more, place, v)
  {
    var before := ApplyVote(ApplyAll(l, others[..place]), v);
    CountedAfterAll(before, others[place..], v.voter);
    ApplyInTurn(before, others[place..], more);
    assert (others + more)[..place] == others[..place] && (others + more)[place..] == others[place..] + more;
  }

  /** The ledger after the others' votes and, if it took effect, this one. */
  ghost function Effect(l: Ledger, others: seq<Vote>, effect: Option<nat>, v: Vote): Ledger {
    if effect.Some? && effect.value <= |others| then Within(l, others, effect.value, v) else ApplyAll(l, others)
  }

  lemma MoreOthers(l: Ledger, others: seq<Vote>, effect: Option<nat>, v: Vote, more: seq<Vote>)
    requires effect.Some? ==> effect.value <= |others|
    ensures ApplyAll(Effect(l, others, effect, v), more) == Effect(l, others + more, effect, v)
  {
    if effect.Some? {
      LaterEffects(l, others, effect.value, v, more);
    } else {
      ApplyInTurn(l, others, more);
    }
  }

  /** Another run of the script takes effect only if none did before. */
  lemma OnceMore(l: Ledger, others: seq<Vote>, effect: Option<nat>, v: Vote)
    requires effect.Some? ==> effect.value <= |others|
    ensures var before, after := Effect(l, others, effect, v), if effect.Some? then effect else Some(|others|);
            && ApplyVote(before, v) == Effect(l, others, after, v)
            && (v.voter in before <==> effect.Some? || v.voter in l || Votes(others, v.voter))
            && v.voter in Effect(l, others, after, v)
  {
    if effect.Some? {
      LaterEffects(l, others, effect.value, v, []);
    } else {
      FirstEffect(l, others, v);
      CountedAfterAll(l, others, v.voter);
    }
  }

  // ---- The tallies of all polls ----

  /** A vote some worker gets counted for some poll. */
  datatype Cast = Cast(poll: PollId, vote: Vote)

  function VotesFor(casts: seq<Cast>, poll: PollId): seq<Vote> {
    if casts == [] then []
    else
      var last := casts[|casts| - 1];
      VotesFor(casts[..|casts| - 1], poll) + (if last.poll == poll then [last.vote] else [])
  }

  lemma {:induction false} VotesForBoth(first: seq<Cast>, second: seq<Cast>, poll: PollId)
    ensures VotesFor(first + second, poll) == VotesFor(first, poll) + VotesFor(second, poll)
    decreases |second|
  {
    if second == [] {
      assert first + second == first;
    } else {
      var init := second[..|second| - 1];
      VotesForBoth(first, init, poll);
      assert (first + second)[..|first + second| - 1] == first + init;
    }
  }

  function LedgerIn(ledgers: map<PollId, Ledger>, poll: PollId): Ledger {
    if poll in ledgers then ledgers[poll] else map[]
  }

  /** Every poll's ledger has moved on by exactly the votes cast for it. */
  ghost predicate CastsApplied(before: map<PollId, Ledger>, after: map<PollId, Ledger>, casts: seq<Cast>) {
    forall q :: LedgerIn(after, q) == ApplyAll(LedgerIn(before, q), VotesFor(casts, q))
  }

  /** ... and the ledger of the target by this vote too, if it took effect. */
  ghost predicate VoteApplied(
    before: map<PollId, Ledger>, after: map<PollId, Ledger>, target: PollId, casts: seq<Cast>, effect: Option<nat>,
    v: Vote)
  {
    && (effect.Some? ==> effect.value <= |VotesFor(casts, target)|)
    && LedgerIn(after, target) == Effect(LedgerIn(before, target), VotesFor(casts, target), effect, v)
    && forall q :: q != target ==> LedgerIn(after, q) == ApplyAll(LedgerIn(before, q), VotesFor(casts, q))
  }

  lemma CastOneMore(before: map<PollId, Ledger>, casts: seq<Cast>, c: Cast, mid: map<PollId, Ledger>)
    requires CastsApplied(before, mid, casts)
    ensures CastsApplied(before, mid[c.poll := ApplyVote(LedgerIn(mid, c.poll), c.vote)], casts + [c])
  {
    assert (casts + [c])[..|casts|] == casts;
    forall q ensures ApplyAll(LedgerIn(before, q), VotesFor(casts + [c], q)) ==
                     if q == c.poll then ApplyVote(LedgerIn(mid, q), c.vote) else LedgerIn(mid, q)
    {
      if q == c.poll {
        ApplyOneMore(LedgerIn(before, q), VotesFor(casts, q), c.vote);
      } else {
        assert VotesFor(casts, q) + [] == VotesFor(casts, q);
      }
    }
  }

  lemma MoreCasts(
    before: map<PollId, Ledger>, mid: map<PollId, Ledger>, after: map<PollId, Ledger>, target: PollId,
    casts: seq<Cast>, effect: Option<nat>, v: Vote, more: seq<Cast>)
    requires VoteApplied(before, mid, target, casts, effect, v) && CastsApplied(mid, after, more)
    ensures VoteApplied(before, after, target, casts + more, effect, v)
  {
    VotesForBoth(casts, more, target);
    MoreOthers(LedgerIn(before, target), VotesFor(casts, target), effect, v, VotesFor(more, target));
    forall q | q != target
      ensures LedgerIn(after, q) == ApplyAll(LedgerIn(before, q), VotesFor(casts + more, q))
    {
      VotesForBoth(casts, more, q);
      ApplyInTurn(LedgerIn(before, q), VotesFor(casts, q), VotesFor(more, q));
    }
  }

  /** The attempt after the last pause is the one that decides. */
  ghost predicate EndedBy(a: Attempt, r: Outcome) {
    && (r.Ok? ==> a.Answered?) && (r == Failed ==> Hopeless(a))
    && (r == Invalid ==> !a.BreakerOpen? && !a.BreakerBusy?)
  }

  /** Where the vote takes effect if the script runs now. */
  function EffectNow(casts: seq<Cast>, target: PollId, effect: Option<nat>): Option<nat> {
    if effect.Some? then effect else Some(|VotesFor(casts, target)|)
  }

  lemma VoteOneMore(
    before: map<PollId, Ledger>, mid: map<PollId, Ledger>, target: PollId, casts: seq<Cast>, effect: Option<nat>,
    v: Vote)
    requires VoteApplied(before, mid, target, casts, effect, v)
    ensures var after := mid[target := ApplyVote(LedgerIn(mid, target), v)];
            && VoteApplied(before, after, target, casts, EffectNow(casts, target, effect), v)
            && v.voter in LedgerIn(after, target)
    ensures v.voter in LedgerIn(mid, target) <==>
            effect.Some? || v.voter in LedgerIn(before, target) || Votes(VotesFor(casts, target), v.voter)
  {
    OnceMore(LedgerIn(before, target), VotesFor(casts, target), effect, v);
  }

  /** The consumer's counting service, over the tallies of all polls, which other workers use at the same time. */
  class Service {
    var ledgers: map<PollId, Ledger>
    /** Votes that others get counted before each of the coming attempts. */
    var rounds: seq<seq<Cast>>

    constructor (rounds: seq<seq<Cast>>)
      ensures ledgers == map[] && this.rounds == rounds
    {
      ledgers := map[];
      this.rounds := rounds;
    }

    /** One call of the script in Redis. */
    method RunScript(target: PollId, v: Vote) returns (r: VoteResult)
      modifies this`ledgers
      ensures ledgers == old(ledgers)[target := ApplyVote(LedgerIn(old(ledgers), target), v)]
      ensures r == if v.voter in LedgerIn(old(ledgers), target) then AlreadyCounted else Counted
    {
      var ledger := LedgerIn(ledgers, target);
      r := if v.voter in ledger then AlreadyCounted else Counted;
      ledgers := ledgers[target := ApplyVote(ledger, v)];
    }

    /** A script call of somebody else. */
    method RunOther(c: Cast, ghost before: map<PollId, Ledger>, ghost ran: seq<Cast>) returns (ghost ran': seq<Cast>)
      requires CastsApplied(before, ledgers, ran)
      modifies this`ledgers
      ensures CastsApplied(before, ledgers, ran') && ran' == ran + [c]
    {
      CastOneMore(before, ran, c, ledgers);
      var r := RunScript(c.poll, c.vote);
      ran' := ran + [c];
    }

    /** The others take their turn. */
    method Interfere() returns (ghost ran: seq<Cast>)
      modifies this
      ensures CastsApplied(old(ledgers), ledgers, ran)
      ensures old(rounds) == [] ==> rounds == [] && ran == []
    {
      ran := [];
      if rounds != [] {
        var casts := rounds[0];
        rounds := rounds[1..];
        for i := 0 to |casts|
          invariant CastsApplied(old(ledgers), ledgers, ran)
        {
          ran := RunOther(casts[i], old(ledgers), ran);
        }
      }
    }

    /** One attempt, after the others had their turn: the script runs if the attempt got that far. */
    method TryOnce(
      target: PollId, v: Vote, runs: bool, ghost start: map<PollId, Ledger>, ghost casts: seq<Cast>,
      ghost effect: Option<nat>)
      returns (res: VoteResult, ghost casts': seq<Cast>, ghost effect': Option<nat>)
      requires VoteApplied(start, ledgers, target, casts, effect, v)
      modifies this
      ensures old(rounds) == [] ==> rounds == [] && casts' == casts
      ensures effect' == if runs then EffectNow(casts', target, effect) else effect
      ensures VoteApplied(start, ledgers, target, casts', effect', v)
      ensures runs ==> v.voter in LedgerIn(ledgers, target)
      ensures runs ==>
                (res == Counted <==>
                  effect.None? && v.voter !in LedgerIn(start, target) && !Votes(VotesFor(casts', target), v.voter))
    {
      ghost var mid := ledgers;
      ghost var more := Interfere();
      MoreCasts(start, mid, ledgers, target, casts, effect, v, more);
      casts', effect' := casts + more, effect;
      res := AlreadyCounted;
      if runs {
        VoteOneMore(start, ledgers, target, casts', effect, v);
        res := RunScript(target, v);
        effect' := EffectNow(casts', target, effect);
      }
    }

    /**
     * applyWithRetry. The context is cancelled when the attempts run out. Whatever the attempts meet, and whatever
     * others count in between, the vote takes effect at most once, in the target's tally: that is the tally of the
     * others' votes alone, or with this vote at one place among them. Success means it has taken effect, and comes
     * exactly when every attempt before the first answered one failed in a way that may pass; "counted" rather than
     * "already counted" is answered exactly when no earlier vote or attempt had got through.
     */
    method ApplyWithRetry(target: PollId, v: Vote, wellFormed: bool, attempts: seq<Attempt>)
      returns (r: Outcome, waits: seq<int>, ghost casts: seq<Cast>, ghost effect: Option<nat>)
      modifies this
      ensures VoteApplied(old(ledgers), ledgers, target, casts, effect, v) && (effect.Some? ==> wellFormed)
      ensures r.Ok? ==> effect.Some? && v.voter in LedgerIn(ledgers, target)
      ensures wellFormed ==> (r.Ok? <==> Succeeds(attempts))
      ensures wellFormed ==>
                (r == Ok(Counted) <==>
                  && v.voter !in LedgerIn(old(ledgers), target) && !Votes(VotesFor(casts, target), v.voter)
                  && SucceedsAfresh(attempts))
      ensures !wellFormed ==> r in {Invalid, Interrupted}
      ensures wellFormed ==> r != Invalid
      ensures old(rounds) == [] ==> casts == []
      ensures r in {Ok(Counted), Ok(AlreadyCounted), Failed, Invalid, Interrupted}
      ensures BackoffOk(waits) && AllRetryable(attempts, |waits|)
      ensures if r == Interrupted then |waits| == |attempts|
              else |waits| < |attempts| && EndedBy(attempts[|waits|], r)
    {
      waits, casts, effect := [], [], None;
      var backoff := INITIAL_BACKOFF;
      var n := 0;
      while n < |attempts|
        invariant 0 <= n <= |attempts| && |waits| == n && AllRetryable(attempts, n)
        invariant VoteApplied(old(ledgers), ledgers, target, casts, effect, v) && (effect.Some? ==> wellFormed)
        invariant wellFormed ==> (effect.Some? <==> RanBefore(attempts, n))
        invariant old(rounds) == [] ==> rounds == [] && casts == []
        invariant BackoffOk(waits) && NextBackoff(waits, backoff)
      {
        var a := attempts[n];
        var reached := !a.BreakerOpen? && !a.BreakerBusy?;
        var res;
        res, casts, effect :=
          TryOnce(target, v, reached && wellFormed && (a.Answered? || a.executed), old(ledgers), casts, effect);
        if reached {
          if !wellFormed {
            return Invalid, waits, casts, effect;
          }
          if a.Answered? {
            OnlyEnd(attempts, n);
            return Ok(res), waits, casts, effect;
          }
          var again := IsTransient(a.error);
          if !again {
            OnlyEnd(attempts, n);
            return Failed, waits, casts, effect;
          }
        }
        PauseOk(waits, backoff);
        waits := waits + [backoff];
        if backoff < MAX_BACKOFF {
          backoff := backoff * 2;
        }
        n := n + 1;
      }
      r := Interrupted;
    }

    /**
     * Count, for a record of any poll: that poll's configuration if it is found, the window, the voter, then the
     * retries. No other poll's tally is touched.
     */
    method Count(rec: Record, found: Option<Config>, attempts: seq<Attempt>)
      returns (r: Outcome, ghost casts: seq<Cast>, ghost effect: Option<nat>)
      requires rec.Message? && (found.Some? ==> found.value.poll == rec.poll)
      modifies this
      ensures r == UnknownPoll <==> found.None?
      ensures r in {UnknownPoll, OutOfWindow, BadVoter} ==> ledgers == old(ledgers)
      ensures found.Some? ==>
                (r == OutOfWindow <==> !InWindow(found.value, rec.producedAt))
      ensures found.Some? ==>
                (r == BadVoter <==> InWindow(found.value, rec.producedAt) && ParseVoterId(rec.voter).None?)
      ensures old(rounds) == [] ==> casts == []
      ensures forall q :: q != rec.poll ==>
                LedgerIn(ledgers, q) == ApplyAll(LedgerIn(old(ledgers), q), VotesFor(casts, q))
      ensures found.Some? && BallotOf(found.value, rec).None? ==>
                && r in {OutOfWindow, BadVoter, Invalid, Interrupted}
                && CastsApplied(old(ledgers), ledgers, casts)
      ensures found.Some? && BallotOf(found.value, rec).Some? ==>
                var v := BallotOf(found.value, rec).value;
                && r in {Ok(Counted), Ok(AlreadyCounted), Failed, Interrupted}
                && VoteApplied(old(ledgers), ledgers, rec.poll, casts, effect, v)
                && (r.Ok? <==> Succeeds(attempts))
                && (r.Ok? ==> effect.Some? && v.voter in LedgerIn(ledgers, rec.poll))
                && (r == Ok(Counted) <==>
                      && v.voter !in LedgerIn(old(ledgers), rec.poll) && !Votes(VotesFor(casts, rec.poll), v.voter)
                      && SucceedsAfresh(attempts))
    {
      casts, effect := [], None;
      if found.None? {
        r := UnknownPoll;
        return;
      }
      var cfg := found.value;
      if !Contains(Window(Open, cfg.opensAt, cfg.closesAt), rec.producedAt) {
        r := OutOfWindow;
        return;
      }
      var voter := ParseVoterId(rec.voter);
      if voter.None? {
        r := BadVoter;
        return;
      }
      var v, wellFormed := Vote(voter.value, OptionsOf(rec.choices)), rec.choices != [] && Distinct(rec.choices);
      var waits;
      r, waits, casts, effect := ApplyWithRetry(rec.poll, v, wellFormed, attempts);
    }
  }

  ghost predicate InWindow(cfg: Config, t: Time) {
    cfg.closesAt != 0 && cfg.opensAt <= t < cfg.closesAt
  }

  // ---- Waiting for the configuration ----

  /** One round of the wait: how long it took, whether the context was cancelled, and what the cache then said. */
  datatype Look = Look(took: nat, cancelled: bool, found: bool)

  /** The time at which the n-th round starts. */
  function StartOf(rounds: seq<Look>, n: nat): nat
    requires n <= |rounds|
  {
    if n == 0 then 0 else StartOf(rounds, n - 1) + rounds[n - 1].took
  }

  /** A configuration turns up in a round begun within the budget, before any cancellation. */
  ghost predicate FoundInTime(rounds: seq<Look>, budget: int, k: nat) {
    && k < |rounds| && rounds[k].found && StartOf(rounds, k) < budget
    && (forall j :: 0 <= j <= k ==> !rounds[j].cancelled)
  }

  ghost predicate FoundEver(rounds: seq<Look>, budget: int) {
    exists k: nat :: FoundInTime(rounds, budget, k)
  }

  lemma {:induction false} RoundsInOrder(rounds: seq<Look>, j: nat, k: nat)
    requires j <= k <= |rounds|
    ensures StartOf(rounds, j) <= StartOf(rounds, k)
  {
    if j < k {
      RoundsInOrder(rounds, j, k - 1);
    }
  }

  lemma NothingAfter(rounds: seq<Look>, budget: int, n: nat)
    requires n <= |rounds| && forall j :: 0 <= j < n ==> !rounds[j].found
    requires n == |rounds| || StartOf(rounds, n) >= budget || rounds[n].cancelled
    ensures !FoundEver(rounds, budget)
  {
    forall k: nat ensures !FoundInTime(rounds, budget, k) {
      if k < |rounds| && n <= k {
        RoundsInOrder(rounds, n, k);
      }
    }
  }

  /** awaitConfig: an immediate look, then one look per interval until the deadline. */
  method AwaitConfig(known: bool, rounds: seq<Look>, budget: int) returns (ok: bool)
    ensures ok <==> known || FoundEver(rounds, budget)
  {
    if known {
      return true;
    }
    var now := 0;
    var n: nat := 0;
    while n < |rounds| && now < budget
      invariant n <= |rounds| && now == StartOf(rounds, n)
      invariant forall j :: 0 <= j < n ==> !rounds[j].found
      invariant forall j :: 0 <= j < n ==> !rounds[j].cancelled
    {
      if rounds[n].cancelled {
        NothingAfter(rounds, budget, n);
        return false;
      }
      if rounds[n].found {
        assert FoundInTime(rounds, budget, n);
        return true;
      }
      now := now + rounds[n].took;
      n := n + 1;
    }
    NothingAfter(rounds, budget, n);
    ok := false;
  }
}
