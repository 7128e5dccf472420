/** Creating a poll: what a specification has to look like, and the poll it becomes. */
module Creation {
  import opened Aggregates
  import opened Ledgers
  import opened Texts
  import opened Keys
  import opened Domain
  import opened Protocol
  import opened Tallies
  import opened Voting

  const MIN_OPTIONS: nat := 2
  const MAX_OPTIONS: nat := 255
  const MAX_SLUG: nat := 64
  const MAX_QUESTION: nat := 1024
  const MAX_OPTION: nat := 512
  const SHARDS_PER_MASTER: nat := 500
  const MAX_SHARDS: nat := 16384

  datatype PollSpec = PollSpec(
    slug: string, question: string, kind: PollType, options: seq<string>, minChoices: uint8, maxChoices: uint8,
    opensAt: Time, closesAt: Time, audience: int, conversion: real, masters: int)

  datatype Poll = Poll(
    id: PollId, slug: string, question: string, kind: PollType, options: seq<PollOption>, minChoices: uint8,
    maxChoices: uint8, window: Window, shardCount: nat, audience: int, conversion: real, version: nat)

  predicate SlugChar(c: char) {
    'a' <= c <= 'z' || '0' <= c <= '9'
  }

  /** The rest of the pattern ^[a-z0-9][a-z0-9_-]{0,63}$ after its first character, with n more to come at most. */
  predicate MatchesTail(s: string, n: nat) {
    s == "" || (n > 0 && (SlugChar(s[0]) || s[0] == '_' || s[0] == '-') && MatchesTail(s[1..], n - 1))
  }

  predicate MatchesSlug(s: string) {
    s != "" && SlugChar(s[0]) && MatchesTail(s[1..], MAX_SLUG - 1)
  }

  /** 1 to 64 small letters, digits, underscores and hyphens, the first one a letter or a digit. */
  ghost predicate SlugShape(s: string) {
    && 1 <= |s| <= 64 && s[0] != '_' && s[0] != '-'
    && forall k :: 0 <= k < |s| ==> 'a' <= s[k] <= 'z' || '0' <= s[k] <= '9' || s[k] == '_' || s[k] == '-'
  }

  lemma {:induction false} TailMatchesExactly(s: string, n: nat)
    ensures MatchesTail(s, n) <==>
            |s| <= n && forall k :: 0 <= k < |s| ==> SlugChar(s[k]) || s[k] == '_' || s[k] == '-'
    decreases n
  {
    if s != "" && n > 0 {
      TailMatchesExactly(s[1..], n - 1);
      assert forall k :: 1 <= k < |s| ==> s[k] == s[1..][k - 1];
    }
  }

  /** The pattern matches the slugs and nothing else. */
  lemma SlugMatchesExactly(s: string)
    ensures MatchesSlug(s) <==> SlugShape(s)
  {
    if s != "" {
      TailMatchesExactly(s[1..], MAX_SLUG - 1);
      assert forall k :: 1 <= k < |s| ==> s[k] == s[1..][k - 1];
    }
  }

  ghost predicate OptionText(s: string) {
    1 <= |Trim(s)| <= 512
  }

  /** What a valid specification looks like, whatever the order of the checks. */
  ghost predicate SpecOk(spec: PollSpec, now: Time, minLead: int) {
    && SlugShape(spec.slug)
    && 1 <= |Trim(spec.question)| <= 1024
    && spec.kind in {Single, Multiple}
    && 2 <= |spec.options| <= 255
    && (forall k :: 0 <= k < |spec.options| ==> OptionText(spec.options[k]))
    && spec.audience >= 0 && 0.0 <= spec.conversion <= 1.0
    && (spec.kind == Multiple ==>
          && 1 <= spec.minChoices <= |spec.options|
          && (spec.maxChoices == 0 || spec.minChoices <= spec.maxChoices))
    && spec.opensAt != 0 && spec.closesAt != 0 && spec.opensAt < spec.closesAt
    && (minLead > 0 ==> now + minLead <= spec.opensAt)
  }

  /** 500 shards for each master and for none, up to the 16384 slots of a cluster; the product never wraps 16 bits. */
  function ShardCountFor(masters: int): (n: nat)
    ensures n == Min(500 * Max(masters, 1), 16384)
  {
    if masters <= 1 then SHARDS_PER_MASTER
    else if masters > MAX_SHARDS / SHARDS_PER_MASTER then MAX_SHARDS
    else masters * SHARDS_PER_MASTER
  }

  function Min(x: int, y: int): int {
    if x < y then x else y
  }

  function OptionCount(p: Poll): (n: uint8)
    ensures n == Min(|p.options|, 255)
  {
    if |p.options| > MAX_OPTIONS then MAX_OPTIONS else |p.options|
  }

  function RulesOf(p: Poll): ChoiceRules {
    ChoiceRules(p.kind, OptionCount(p), p.minChoices, p.maxChoices)
  }

  /** Under a poll's rules exactly choices of distinct options of the poll, as many as it asks for, are valid. */
  lemma PollRulesExactly(p: Poll, choices: seq<uint8>)
    requires |p.options| <= 255
    ensures ValidChoices(RulesOf(p), choices) <==>
            && choices != []
            && (forall i, j :: 0 <= i < j < |choices| ==> choices[i] != choices[j])
            && (forall k :: 0 <= k < |choices| ==> choices[k] < |p.options|)
            && (p.kind == Single ==> |choices| == 1)
            && (p.kind == Multiple ==>
                  p.minChoices <= |choices| && (p.maxChoices > 0 ==> |choices| <= p.maxChoices))
            && p.kind != Unknown
  {
  }

  /** validate: the checks in their order, the options one by one. */
  method ValidateSpec(spec: PollSpec, now: Time, minLead: int) returns (ok: bool)
    ensures ok <==> SpecOk(spec, now, minLead)
  {
    var question := Trim(spec.question);
    SlugMatchesExactly(spec.slug);
    if !MatchesSlug(spec.slug) || question == "" || |question| > MAX_QUESTION || spec.kind == Unknown
       || |spec.options| < MIN_OPTIONS || |spec.options| > MAX_OPTIONS
    {
      return false;
    }
    for i := 0 to |spec.options|
      invariant forall k :: 0 <= k < i ==> OptionText(spec.options[k])
    {
      var option := Trim(spec.options[i]);
      if option == "" || |option| > MAX_OPTION {
        return false;
      }
    }
    if spec.audience < 0 || spec.conversion < 0.0 || spec.conversion > 1.0 {
      return false;
    }
    if spec.kind == Multiple {
      if spec.minChoices == 0 || (spec.maxChoices > 0 && spec.maxChoices < spec.minChoices)
         || spec.minChoices > |spec.options|
      {
        return false;
      }
    }
    if spec.opensAt == ZERO_TIME || spec.closesAt == ZERO_TIME || spec.closesAt <= spec.opensAt {
      return false;
    }
    ok := !(minLead > 0 && spec.opensAt - now < minLead);
  }

  /** The poll a specification asks for, not yet open. */
  ghost predicate BuiltFrom(p: Poll, spec: PollSpec, id: PollId) {
    && p.id == id && p.slug == spec.slug && p.question == Trim(spec.question) && p.version == 1 && p.kind == spec.kind
    && p.window == Window(Scheduled, spec.opensAt, spec.closesAt)
    && p.shardCount == Min(500 * Max(spec.masters, 1), 16384)
    && |p.options| == |spec.options| <= 255
    && (forall k :: 0 <= k < |spec.options| ==> p.options[k] == PollOption(k, Trim(spec.options[k])))
    && p.minChoices == (if spec.kind == Single then 1 else spec.minChoices)
    && p.maxChoices == (if spec.kind == Single then 1 else spec.maxChoices)
    && p.audience == spec.audience && p.conversion == spec.conversion
  }

  /** NewPoll under a given fresh identifier. */
  method NewPoll(spec: PollSpec, id: PollId, now: Time, minLead: int) returns (r: Option<Poll>)
    ensures r.Some? <==> SpecOk(spec, now, minLead)
    ensures r.Some? ==> BuiltFrom(r.value, spec, id)
  {
    var ok := ValidateSpec(spec, now, minLead);
    if !ok {
      return None;
    }
    var options: seq<PollOption> := [];
    for i := 0 to |spec.options|
      invariant |options| == i
      invariant forall k :: 0 <= k < i ==> options[k] == PollOption(k, Trim(spec.options[k]))
    {
      options := options + [PollOption(i, Trim(spec.options[i]))];
    }
    var minChoices, maxChoices := spec.minChoices, spec.maxChoices;
    if spec.kind == Single {
      minChoices, maxChoices := 1, 1;
    }
    r := Some(Poll(id, spec.slug, Trim(spec.question), spec.kind, options, minChoices, maxChoices,
                   Window(Scheduled, spec.opensAt, spec.closesAt), ShardCountFor(spec.masters),
                   spec.audience, spec.conversion, 1));
  }

  function FirstOptions(n: nat): seq<uint8>
    requires n <= 256
  {
    if n == 0 then [] else FirstOptions(n - 1) + [n - 1]
  }

  lemma {:induction false} FirstOptionsAreThem(n: nat)
    requires n <= 256
    ensures |FirstOptions(n)| == n && forall k :: 0 <= k < n ==> FirstOptions(n)[k] == k
  {
    if n > 0 {
      FirstOptionsAreThem(n - 1);
    }
  }

  /**
   * Every poll that can be created can be voted in: once it is open there is a moment and a choice that Accept takes
   * and the consumer counts, and the tally's target is usable, unless its identifier is the nil one.
   */
  lemma NewPollAdmitsAVote(spec: PollSpec, p: Poll, id: PollId, now: Time, minLead: int, cfg: Config, v: VoterId)
    requires SpecOk(spec, now, minLead) && BuiltFrom(p, spec, id)
    requires cfg.poll == p.id && cfg.opensAt == p.window.opensAt && cfg.closesAt == p.window.closesAt
    ensures var choices := FirstOptions(if p.kind == Single then 1 else p.minChoices);
            && ValidChoices(RulesOf(p), choices)
            && IsOpenAt(p.window.(status := Open), p.window.opensAt)
            && BallotOf(cfg, Message(p.id, Hex(v), choices, p.window.opensAt)) == Some(Vote(v, OptionsOf(choices)))
    ensures ValidTarget(Target(p.id, p.shardCount)) <==> exists i :: 0 <= i < 16 && id[i] != 0
  {
    var n := if p.kind == Single then 1 else p.minChoices;
    FirstOptionsAreThem(n);
    var choices := FirstOptions(n);
    assert ValidChoices(RulesOf(p), choices);
    VoterIdRoundTrip(v);
  }
}
