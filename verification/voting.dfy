/** Accepting a vote: choice rules, voter identity and what enters the log. */
module Voting {
  import opened Aggregates
  import opened Ledgers
  import opened Texts
  import opened Keys
  import opened Domain
  import opened Protocol

  // ---- Choice rules ----

  /** Unknown stands for any type string that is neither of the two. */
  datatype PollType = Single | Multiple | Unknown

  datatype ChoiceRules = ChoiceRules(kind: PollType, optionCount: uint8, minChoices: uint8, maxChoices: uint8)

  predicate LegalSize(r: ChoiceRules, n: nat) {
    match r.kind
    case Single => n == 1
    case Multiple => r.minChoices <= n && (r.maxChoices > 0 ==> n <= r.maxChoices)
    case Unknown => false
  }

  /** A legal ballot paper: a legal number of distinct options of the poll. */
  ghost predicate ValidChoices(r: ChoiceRules, choices: seq<uint8>) {
    && choices != []
    && ((r.kind == Single && |choices| == 1)
        || (r.kind == Multiple && r.minChoices <= |choices| && (r.maxChoices == 0 || |choices| <= r.maxChoices)))
    && (forall i, j :: 0 <= i < j < |choices| ==> choices[i] != choices[j])
    && forall k :: 0 <= k < |choices| ==> choices[k] < r.optionCount
  }

  /** Validate: size by type, then one pass with a table of seen options. */
  method Validate(r: ChoiceRules, choices: seq<uint8>) returns (ok: bool)
    ensures ok <==> ValidChoices(r, choices)
  {
    if |choices| == 0 || !LegalSize(r, |choices|) {
      return false;
    }
    var seen := new bool[256](_ => false);
    for n := 0 to |choices|
      invariant forall i: uint8 :: seen[i] <==> i in choices[..n]
      invariant Distinct(choices[..n])
      invariant forall k :: 0 <= k < n ==> choices[k] < r.optionCount
    {
      var idx := choices[n];
      assert choices[..n + 1] == choices[..n] + [idx];
      if idx >= r.optionCount {
        return false;
      }
      if seen[idx] {
        var k :| 0 <= k < n && choices[k] == idx;
        return false;
      }
      seen[idx] := true;
    }
    assert choices[..|choices|] == choices;
    return true;
  }

  lemma {:induction false} DistinctCount(choices: seq<uint8>)
    requires Distinct(choices)
    ensures |OptionsOf(choices)| == |choices|
    decreases |choices|
  {
    if choices != [] {
      var init, last := choices[..|choices| - 1], choices[|choices| - 1];
      DistinctCount(init);
      assert choices == init + [last];
      assert OptionsOf(choices) == OptionsOf(init) + {last};
      assert last !in init;
    }
  }

  lemma {:induction false} BelowCount(s: set<uint8>, n: nat)
    requires forall i :: i in s ==> i < n
    ensures |s| <= n
  {
    if n > 0 {
      if n <= 256 && (n - 1) in s {
        BelowCount(s - {n - 1}, n - 1);
      } else {
        BelowCount(s, n - 1);
      }
    } else {
      assert s == {};
    }
  }

  /** What passes the rules passes the tally's own check, and cannot name more options than there are. */
  lemma ValidChoicesAreCountable(r: ChoiceRules, choices: seq<uint8>)
    requires ValidChoices(r, choices)
    ensures choices != [] && Distinct(choices)
    ensures |choices| <= r.optionCount
  {
    DistinctCount(choices);
    BelowCount(OptionsOf(choices), r.optionCount);
  }

  // ---- Voter identity ----

  const MIN_SALT: nat := 16
  const MAX_CLIENT_ID: nat := 256
  const CONSTANT_CLIENT_IDS: set<string> :=
    {"", "undefined", "null", "nan", "nil", "none", "false", "true", "0", "1", "-", "[object object]",
     "00000000-0000-0000-0000-000000000000"}

  datatype Derived = Voter(id: VoterId) | BadSalt | BadClientId

  /** DeriveVoterID over an arbitrary keyed hash; identifiers many clients would share are refused. */
  function DeriveVoterId(mac: (seq<uint8>, string) -> VoterId, salt: seq<uint8>, clientId: string): Derived {
    if |salt| < MIN_SALT then BadSalt
    else if |clientId| > MAX_CLIENT_ID then BadClientId
    else if LowerAscii(Trim(clientId)) in CONSTANT_CLIENT_IDS then BadClientId
    else Voter(mac(salt, clientId))
  }

  // ---- Accepting a vote ----

  datatype PollOption = PollOption(idx: uint8, text: string)

  datatype HotConfig = HotConfig(
    id: PollId, slug: string, question: string, options: seq<PollOption>, rules: ChoiceRules, window: Window,
    shardCount: nat, salt: seq<uint8>)

  /** How the synchronous send ends; a failed one, a timeout say, may have appended the record all the same. */
  datatype Sending = Delivered | Failed(landed: bool)

  datatype Reply = Accepted | UnknownPoll | InvalidChoices | PollClosed | BadVoter | QueueUnavailable

  /** The pipeline's view of a poll agrees with the cached configuration. */
  ghost predicate SamePoll(cfg: Config, hot: HotConfig) {
    cfg.poll == hot.id && cfg.opensAt == hot.window.opensAt && cfg.closesAt == hot.window.closesAt
  }

  ghost predicate OpenWindow(w: Window, at: Time) {
    w.status == Open && w.closesAt != 0 && w.opensAt <= at < w.closesAt
  }

  /** A long enough salt, and an identifier that is neither too long nor one that many clients would send. */
  ghost predicate Identifiable(salt: seq<uint8>, clientId: string) {
    && |salt| >= 16 && |clientId| <= 256
    && LowerAscii(Trim(clientId)) !in
         {"", "undefined", "null", "nan", "nil", "none", "false", "true", "0", "1", "-", "[object object]",
          "00000000-0000-0000-0000-000000000000"}
  }

  /** Every check before the send passes. */
  ghost predicate Acceptable(h: HotConfig, clientId: string, choices: seq<uint8>, at: Time) {
    ValidChoices(h.rules, choices) && OpenWindow(h.window, at) && Identifiable(h.salt, clientId)
  }

  class Ingest {
    const mac: (seq<uint8>, string) -> VoterId
    var log: seq<Record>

    constructor (mac: (seq<uint8>, string) -> VoterId)
      ensures this.mac == mac && log == []
    {
      this.mac := mac;
      log := [];
    }

    /**
     * Accept, with the clock read twice: at checks the window, stamp goes into the message. A vote enters the log at
     * most once, and only if every check passed: when it is accepted, or when the send failed after all it took. Its
     * voter is the keyed hash of the client's own identifier.
     */
    method Accept(hot: Option<HotConfig>, clientId: string, choices: seq<uint8>, at: Time, stamp: Time, sent: Sending)
      returns (r: Reply)
      requires at <= stamp
      modifies this
      ensures r == UnknownPoll <==> hot.None?
      ensures hot.Some? ==>
                var h := hot.value;
                && (r == InvalidChoices <==> !ValidChoices(h.rules, choices))
                && (r == PollClosed <==> ValidChoices(h.rules, choices) && !OpenWindow(h.window, at))
                && (r == BadVoter <==>
                      ValidChoices(h.rules, choices) && OpenWindow(h.window, at) && !Identifiable(h.salt, clientId))
                && (r == QueueUnavailable <==> Acceptable(h, clientId, choices, at) && sent.Failed?)
                && (r == Accepted <==> Acceptable(h, clientId, choices, at) && sent.Delivered?)
      ensures r == Accepted || (r == QueueUnavailable && sent.landed) ==>
                log == old(log) + [Message(hot.value.id, Hex(mac(hot.value.salt, clientId)), choices, stamp)]
      ensures !(r == Accepted || (r == QueueUnavailable && sent.landed)) ==> log == old(log)
    {
      if hot.None? {
        return UnknownPoll;
      }
      var ok := Validate(hot.value.rules, choices);
      if !ok {
        return InvalidChoices;
      }
      if !IsOpenAt(hot.value.window, at) {
        return PollClosed;
      }
      var voter := DeriveVoterId(mac, hot.value.salt, clientId);
      if !voter.Voter? {
        return BadVoter;
      }
      if sent.Delivered? || sent.landed {
        log := log + [Message(hot.value.id, Hex(voter.id), choices, stamp)];
      }
      r := if sent.Delivered? then Accepted else QueueUnavailable;
    }
  }

  /**
   * An accepted message passes every check of the consumer if and only if its stamp is still before the close: the
   * second clock reading is what decides, not the one the voter's request was checked with.
   */
  lemma AcceptedSurvivesExactly(
    cfg: Config, hot: HotConfig, v: VoterId, choices: seq<uint8>, at: Time, stamp: Time)
    requires SamePoll(cfg, hot) && ValidChoices(hot.rules, choices) && OpenWindow(hot.window, at) && at <= stamp
    ensures var b := BallotOf(cfg, Message(hot.id, Hex(v), choices, stamp));
            && (b.Some? <==> stamp < hot.window.closesAt)
            && (b.Some? ==> b == Some(Vote(v, OptionsOf(choices))))
  {
    VoterIdRoundTrip(v);
    ValidChoicesAreCountable(hot.rules, choices);
  }

  /** The gap is real: a request checked on the window's last tick and stamped one later is answered and lost. */
  lemma AcceptedAtTheEdgeIsLost(cfg: Config, hot: HotConfig, v: VoterId, choices: seq<uint8>)
    requires SamePoll(cfg, hot) && ValidChoices(hot.rules, choices)
    requires hot.window.status == Open && hot.window.closesAt != ZERO_TIME && hot.window.opensAt < hot.window.closesAt
    ensures OpenWindow(hot.window, hot.window.closesAt - 1)
    ensures BallotOf(cfg, Message(hot.id, Hex(v), choices, hot.window.closesAt)).None?
  {
    AcceptedSurvivesExactly(cfg, hot, v, choices, hot.window.closesAt - 1, hot.window.closesAt);
  }

  /**
   * Where the keyed hash tells identifiers apart, two countable messages of one poll are the same voter's if and only
   * if they come from the same client.
   */
  lemma OneVoterPerClient(
    mac: (seq<uint8>, string) -> VoterId, cfg: Config, hot: HotConfig, a: string, b: string, choicesA: seq<uint8>,
    choicesB: seq<uint8>, stampA: Time, stampB: Time)
    requires forall c, d :: mac(hot.salt, c) == mac(hot.salt, d) ==> c == d
    requires BallotOf(cfg, Message(hot.id, Hex(mac(hot.salt, a)), choicesA, stampA)).Some?
    requires BallotOf(cfg, Message(hot.id, Hex(mac(hot.salt, b)), choicesB, stampB)).Some?
    ensures var x := BallotOf(cfg, Message(hot.id, Hex(mac(hot.salt, a)), choicesA, stampA)).value;
            var y := BallotOf(cfg, Message(hot.id, Hex(mac(hot.salt, b)), choicesB, stampB)).value;
            x.voter == y.voter <==> a == b
  {
    VoterIdRoundTrip(mac(hot.salt, a));
    VoterIdRoundTrip(mac(hot.salt, b));
  }
}
