/** Redis key names and the cluster slot they hash to. */
module Keys {
  import opened Aggregates
  import opened Ledgers
  import opened Texts

  /** The 16 bytes of a UUID. */
  type PollId = s: seq<uint8> | |s| == 16 witness seq(16, _ => 0)

  /** uuid.Nil. */
  const NIL_POLL: PollId := [0, 0, 0, 0, 0, 0, 0, 0, 0, 0, 0, 0, 0, 0, 0, 0]

  lemma NilExactly(id: PollId)
    ensures id == NIL_POLL <==> forall i :: 0 <= i < 16 ==> id[i] == 0
  {
  }

  /** The text form of section 4 of RFC 9562: 8-4-4-4-12 lower-case hex digits. */
  function UuidText(p: PollId): (s: string)
    ensures |s| == 36
  {
    Hex(p[..4]) + "-" + Hex(p[4..6]) + "-" + Hex(p[6..8]) + "-" + Hex(p[8..10]) + "-" + Hex(p[10..])
  }

  function HashTag(poll: PollId, shard: nat): string {
    "p:" + UuidText(poll) + ":s" + Decimal(shard)
  }

  ghost predicate NoBrace(s: string) {
    forall k :: 0 <= k < |s| ==> s[k] != '{' && s[k] != '}'
  }

  lemma UuidTextHasNoBrace(p: PollId)
    ensures NoBrace(UuidText(p))
  {
    HexIsLowerHex(p[..4]);
    HexIsLowerHex(p[4..6]);
    HexIsLowerHex(p[6..8]);
    HexIsLowerHex(p[8..10]);
    HexIsLowerHex(p[10..]);
  }

  lemma HashTagHasNoBrace(poll: PollId, shard: nat)
    ensures NoBrace(HashTag(poll, shard))
  {
    UuidTextHasNoBrace(poll);
    DecimalIsDigits(shard);
  }

  function DedupKey(poll: PollId, shard: nat, v: VoterId): string {
    "v:" + "{" + HashTag(poll, shard) + "}:" + Hex(v)
  }

  function CounterKey(poll: PollId, shard: nat): string {
    "c:" + "{" + HashTag(poll, shard) + "}"
  }

  /** shardFor over an arbitrary 64-bit hash of the voter. */
  function ShardFor(hash: VoterId -> nat, v: VoterId, shardCount: nat): (s: nat)
    ensures shardCount > 0 ==> s < shardCount
  {
    if shardCount == 0 then 0 else hash(v) % shardCount
  }

  /** The shard is what is left of the hash after whole rounds over the shards. */
  lemma ShardIsRemainder(hash: VoterId -> nat, v: VoterId, shardCount: nat)
    ensures shardCount == 0 ==> ShardFor(hash, v, shardCount) == 0
    ensures shardCount > 0 ==>
              && ShardFor(hash, v, shardCount) < shardCount
              && hash(v) == hash(v) / shardCount * shardCount + ShardFor(hash, v, shardCount)
  {
  }

  /** First position of c at or after from; the length of s when there is none. */
  function IndexFrom(s: string, c: char, from: nat): (k: nat)
    requires from <= |s|
    ensures from <= k <= |s|
    ensures k < |s| ==> s[k] == c
    ensures forall j :: from <= j < k ==> s[j] != c
    decreases |s| - from
  {
    if from == |s| || s[from] == c then from else IndexFrom(s, c, from + 1)
  }

  /**
   * The part of a key that the cluster hashes, by the "Hash tags" section of the Redis Cluster
   * Specification: what stands between the first '{' and the first '}' after it, unless that is empty.
   */
  function SlotText(key: string): string {
    var open := IndexFrom(key, '{', 0);
    if open == |key| then key
    else
      var close := IndexFrom(key, '}', open + 1);
      if close == |key| || close == open + 1 then key else key[open + 1..close]
  }

  lemma SlotTextOf(before: string, tag: string, after: string)
    requires NoBrace(before) && NoBrace(tag) && tag != ""
    ensures SlotText(before + "{" + tag + "}" + after) == tag
  {
    var key, open := before + "{" + tag + "}" + after, |before|;
    var close := open + 1 + |tag|;
    assert forall k :: 0 <= k < open ==> key[k] == before[k];
    FirstAt(key, '{', 0, open);
    assert forall k :: open < k < close ==> key[k] == tag[k - open - 1];
    FirstAt(key, '}', open + 1, close);
    assert key[open + 1..close] == tag;
  }

  lemma FirstAt(s: string, c: char, from: nat, k: nat)
    requires from <= k < |s| && s[k] == c && forall j :: from <= j < k ==> s[j] != c
    ensures IndexFrom(s, c, from) == k
  {
  }

  /** Without a tag, with an empty one or with one that is not closed, the whole key is hashed. */
  lemma SlotTextWhole(before: string, after: string)
    requires NoBrace(before)
    ensures SlotText(before) == before
    ensures SlotText(before + "{}" + after) == before + "{}" + after
    ensures NoBrace(after) ==> SlotText(before + "{" + after) == before + "{" + after
  {
    var empty, unclosed, open := before + "{}" + after, before + "{" + after, |before|;
    assert IndexFrom(before, '{', 0) == |before|;
    assert forall k :: 0 <= k < open ==> empty[k] == before[k] && unclosed[k] == before[k];
    FirstAt(empty, '{', 0, open);
    FirstAt(empty, '}', open + 1, open + 1);
    FirstAt(unclosed, '{', 0, open);
    assert forall k :: open < k < |unclosed| ==> unclosed[k] == after[k - open - 1];
  }

  lemma CounterSlot(poll: PollId, shard: nat)
    ensures SlotText(CounterKey(poll, shard)) == HashTag(poll, shard)
  {
    var tag := HashTag(poll, shard);
    HashTagHasNoBrace(poll, shard);
    SlotTextOf("c:", tag, "");
    assert CounterKey(poll, shard) == "c:" + "{" + tag + "}" + "";
  }

  lemma Regroup(tag: string, rest: string)
    ensures "v:" + "{" + tag + "}:" + rest == "v:" + "{" + tag + "}" + (":" + rest)
  {
  }

  lemma DedupSlot(poll: PollId, shard: nat, v: VoterId)
    ensures SlotText(DedupKey(poll, shard, v)) == HashTag(poll, shard)
  {
    var tag, rest := HashTag(poll, shard), Hex(v);
    HashTagHasNoBrace(poll, shard);
    SlotTextOf("v:", tag, ":" + rest);
    Regroup(tag, rest);
  }

  /** Both keys of a vote go to one slot, which is what lets the script touch them together. */
  lemma SameSlot(poll: PollId, shard: nat, v: VoterId)
    ensures SlotText(DedupKey(poll, shard, v)) == SlotText(CounterKey(poll, shard))
  {
    CounterSlot(poll, shard);
    DedupSlot(poll, shard, v);
  }

  /** The five groups of hex digits, at their places in the text. */
  lemma UuidTextParts(p: PollId)
    ensures var s := UuidText(p);
            && s[0..8] == Hex(p[..4]) && s[9..13] == Hex(p[4..6]) && s[14..18] == Hex(p[6..8])
            && s[19..23] == Hex(p[8..10]) && s[24..36] == Hex(p[10..])
  {
  }

  /** Four hyphens at their places; without them the text is the hex of the sixteen bytes. */
  lemma UuidTextLayout(p: PollId)
    ensures var s := UuidText(p);
            && s[8] == '-' && s[13] == '-' && s[18] == '-' && s[23] == '-'
            && s[..8] + s[9..13] + s[14..18] + s[19..23] + s[24..] == Hex(p)
  {
    UuidTextParts(p);
    PartsMakeWhole(p);
    HexOfBoth(p[..4], p[4..6]);
    HexOfBoth(p[..4] + p[4..6], p[6..8]);
    HexOfBoth(p[..4] + p[4..6] + p[6..8], p[8..10]);
    HexOfBoth(p[..4] + p[4..6] + p[6..8] + p[8..10], p[10..]);
    HyphensAt(p);
  }

  lemma HyphensAt(p: PollId)
    ensures var s := UuidText(p);
            s[8] == '-' && s[13] == '-' && s[18] == '-' && s[23] == '-' && s[24..] == s[24..36] && s[..8] == s[0..8]
  {
  }

  /** The keys, written out. */
  lemma KeyTexts(poll: PollId, shard: nat, v: VoterId)
    ensures DedupKey(poll, shard, v) == "v:{p:" + UuidText(poll) + ":s" + Decimal(shard) + "}:" + Hex(v)
    ensures CounterKey(poll, shard) == "c:{p:" + UuidText(poll) + ":s" + Decimal(shard) + "}"
  {
    FlatKeys(UuidText(poll), Decimal(shard), Hex(v));
  }

  lemma FlatKeys(uuid: string, shard: string, voter: string)
    ensures "v:" + "{" + ("p:" + uuid + ":s" + shard) + "}:" + voter == "v:{p:" + uuid + ":s" + shard + "}:" + voter
    ensures "c:" + "{" + ("p:" + uuid + ":s" + shard) + "}" == "c:{p:" + uuid + ":s" + shard + "}"
  {
  }

  lemma UuidTextInjective(p: PollId, q: PollId)
    requires UuidText(p) == UuidText(q)
    ensures p == q
  {
    UuidTextParts(p);
    UuidTextParts(q);
    HexInjective(p[..4], q[..4]);
    HexInjective(p[4..6], q[4..6]);
    HexInjective(p[6..8], q[6..8]);
    HexInjective(p[8..10], q[8..10]);
    HexInjective(p[10..], q[10..]);
    PartsMakeWhole(p);
    PartsMakeWhole(q);
  }

  lemma PartsMakeWhole(p: PollId)
    ensures p == p[..4] + p[4..6] + p[6..8] + p[8..10] + p[10..]
  {
  }

  lemma HashTagParts(poll: PollId, shard: nat)
    ensures var s := HashTag(poll, shard);
            |s| > 40 && s[2..38] == UuidText(poll) && s[40..] == Decimal(shard)
  {
  }

  lemma HashTagInjective(p: PollId, s: nat, q: PollId, t: nat)
    requires HashTag(p, s) == HashTag(q, t)
    ensures p == q && s == t
  {
    HashTagParts(p, s);
    HashTagParts(q, t);
    UuidTextInjective(p, q);
    DecimalInjective(s, t);
  }

  lemma CounterKeyInjective(p: PollId, s: nat, q: PollId, t: nat)
    requires CounterKey(p, s) == CounterKey(q, t)
    ensures p == q && s == t
  {
    CounterSlot(p, s);
    CounterSlot(q, t);
    HashTagInjective(p, s, q, t);
  }

  lemma DedupKeyInjective(p: PollId, s: nat, v: VoterId, q: PollId, t: nat, w: VoterId)
    requires DedupKey(p, s, v) == DedupKey(q, t, w)
    ensures p == q && s == t && v == w
  {
    DedupSlot(p, s, v);
    DedupSlot(q, t, w);
    HashTagInjective(p, s, q, t);
    var a, b := DedupKey(p, s, v), DedupKey(q, t, w);
    assert a[|a| - 32..] == Hex(v) && b[|b| - 32..] == Hex(w);
    HexInjective(v, w);
  }

  /** A dedup key is never a counter key. */
  lemma KeysDisjoint(p: PollId, s: nat, v: VoterId, q: PollId, t: nat)
    ensures DedupKey(p, s, v) != CounterKey(q, t)
  {
    assert DedupKey(p, s, v)[0] == 'v' && CounterKey(q, t)[0] == 'c';
  }
}
