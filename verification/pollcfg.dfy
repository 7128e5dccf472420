/** The configuration cache: whole snapshots of the active polls, swapped in one at a time. */
module PollConfig {
  import opened Aggregates
  import opened Texts
  import opened Keys
  import opened Voting
  import opened Creation

  /** A poll as the store lists it; the list may hold nil entries. */
  datatype Listed = Nil | Entry(poll: Poll, salt: seq<uint8>)

  /** hotConfig: entries without a slug or an identifier are not usable. */
  function HotOf(e: Listed): Option<HotConfig> {
    if e.Nil? || e.poll.slug == "" || e.poll.id == NIL_POLL then None
    else
      var p := e.poll;
      Some(HotConfig(p.id, p.slug, p.question, p.options, RulesOf(p), p.window, p.shardCount, e.salt))
  }

  /** The entry has a slug and an identifier that is not all zero, and the configuration says what the poll says. */
  ghost predicate Describes(h: HotConfig, e: Listed) {
    && e.Entry? && e.poll.slug != "" && (exists i :: 0 <= i < 16 && e.poll.id[i] != 0)
    && h.id == e.poll.id && h.slug == e.poll.slug && h.question == e.poll.question && h.options == e.poll.options
    && h.rules.kind == e.poll.kind && h.rules.optionCount == Min(|e.poll.options|, 255)
    && h.rules.minChoices == e.poll.minChoices && h.rules.maxChoices == e.poll.maxChoices
    && h.window == e.poll.window && h.shardCount == e.poll.shardCount && h.salt == e.salt
  }

  /** hotConfig answers with the description of the entry, and with nothing exactly if there is none. */
  lemma HotExactly(e: Listed, h: HotConfig)
    ensures HotOf(e) == Some(h) <==> Describes(h, e)
  {
    if e.Entry? {
      NilExactly(e.poll.id);
    }
  }

  datatype Snapshot = Snapshot(bySlug: map<string, HotConfig>, byId: map<PollId, HotConfig>)

  function Indexed(s: Snapshot, h: Option<HotConfig>): Snapshot {
    if h.None? then s else Snapshot(s.bySlug[h.value.slug := h.value], s.byId[h.value.id := h.value])
  }

  /** The index of a whole list, later usable entries winning. */
  function SnapshotOf(polls: seq<Listed>): Snapshot {
    if polls == [] then Snapshot(map[], map[])
    else Indexed(SnapshotOf(polls[..|polls| - 1]), HotOf(polls[|polls| - 1]))
  }

  /** The configuration describes one of the listed polls. */
  ghost predicate Usable(polls: seq<Listed>, h: HotConfig) {
    exists k :: 0 <= k < |polls| && Describes(h, polls[k])
  }

  ghost function UsableOf(polls: seq<Listed>): iset<HotConfig> {
    iset h | Usable(polls, h)
  }

  function SlugOf(h: HotConfig): string { h.slug }

  function IdOf(h: HotConfig): PollId { h.id }

  ghost predicate UniqueBy<K>(usable: iset<HotConfig>, key: HotConfig -> K) {
    forall g, h :: g in usable && h in usable && key(g) == key(h) ==> g == h
  }

  /** Usable polls never share a slug or an identifier; the store's keys see to that. */
  ghost predicate UniqueKeys(polls: seq<Listed>) {
    UniqueBy(UsableOf(polls), SlugOf) && UniqueBy(UsableOf(polls), IdOf)
  }

  lemma UsableOneMore(polls: seq<Listed>, h: HotConfig)
    requires polls != []
    ensures Usable(polls, h) <==> Usable(polls[..|polls| - 1], h) || HotOf(polls[|polls| - 1]) == Some(h)
  {
    var init := polls[..|polls| - 1];
    HotExactly(polls[|polls| - 1], h);
    if Usable(init, h) {
      var k :| 0 <= k < |init| && Describes(h, init[k]);
      assert Describes(h, polls[k]);
    }
    if Usable(polls, h) {
      var k :| 0 <= k < |polls| && Describes(h, polls[k]);
      if k < |init| {
        assert Describes(h, init[k]);
      }
    }
  }

  /** What is indexed is usable, under its own keys, and every usable entry has its keys in the index. */
  ghost predicate IsIndexOf(polls: seq<Listed>, s: Snapshot) {
    Indexes(UsableOf(polls), SlugOf, s.bySlug) && Indexes(UsableOf(polls), IdOf, s.byId)
  }

  ghost predicate Indexes<K>(usable: iset<HotConfig>, key: HotConfig -> K, m: map<K, HotConfig>) {
    && (forall k :: k in m ==> m[k] in usable && key(m[k]) == k)
    && (forall h :: h in usable ==> key(h) in m)
  }


  lemma IndexOneMore<K>(usable: iset<HotConfig>, key: HotConfig -> K, m: map<K, HotConfig>, h: HotConfig)
    requires Indexes(usable, key, m)
    ensures Indexes(usable + iset{h}, key, m[key(h) := h])
  {
  }

  lemma {:induction false} SnapshotContents(polls: seq<Listed>)
    ensures IsIndexOf(polls, SnapshotOf(polls))
    decreases |polls|
  {
    if polls != [] {
      var init, h := polls[..|polls| - 1], HotOf(polls[|polls| - 1]);
      SnapshotContents(init);
      forall g ensures Usable(polls, g) <==> Usable(init, g) || h == Some(g) {
        UsableOneMore(polls, g);
      }
      if h.None? {
        assert UsableOf(polls) == UsableOf(init);
      } else {
        assert UsableOf(polls) == UsableOf(init) + iset{h.value};
        IndexOneMore(UsableOf(init), SlugOf, SnapshotOf(init).bySlug, h.value);
        IndexOneMore(UsableOf(init), IdOf, SnapshotOf(init).byId, h.value);
      }
    }
  }

  lemma Lookup<K>(usable: iset<HotConfig>, key: HotConfig -> K, m: map<K, HotConfig>, k: K)
    requires Indexes(usable, key, m)
    ensures k in m ==> m[k] in usable && key(m[k]) == k
    ensures k !in m ==> forall h :: h in usable ==> key(h) != k
  {
  }

  lemma UniqueLookup<K>(usable: iset<HotConfig>, key: HotConfig -> K, m: map<K, HotConfig>, h: HotConfig)
    requires Indexes(usable, key, m) && UniqueBy(usable, key)
    ensures h in usable <==> key(h) in m && m[key(h)] == h
  {
  }

  /** With unique keys the two lookups are inverse to each other, over exactly the usable polls of the list. */
  lemma LookupsAreInverse(polls: seq<Listed>, h: HotConfig, slug: string, id: PollId)
    requires UniqueKeys(polls)
    ensures var s := SnapshotOf(polls);
            && (Usable(polls, h) <==> h.slug in s.bySlug && s.bySlug[h.slug] == h)
            && (Usable(polls, h) <==> h.id in s.byId && s.byId[h.id] == h)
            && (slug in s.bySlug ==>
                  && s.bySlug[slug].slug == slug
                  && s.bySlug[slug].id in s.byId && s.byId[s.bySlug[slug].id] == s.bySlug[slug])
            && (id in s.byId ==>
                  && s.byId[id].id == id
                  && s.byId[id].slug in s.bySlug && s.bySlug[s.byId[id].slug] == s.byId[id])
  {
    var usable, s := UsableOf(polls), SnapshotOf(polls);
    SnapshotContents(polls);
    UniqueLookup(usable, SlugOf, s.bySlug, h);
    UniqueLookup(usable, IdOf, s.byId, h);
    Lookup(usable, SlugOf, s.bySlug, slug);
    Lookup(usable, IdOf, s.byId, id);
    if slug in s.bySlug {
      UniqueLookup(usable, IdOf, s.byId, s.bySlug[slug]);
    }
    if id in s.byId {
      UniqueLookup(usable, SlugOf, s.bySlug, s.byId[id]);
    }
  }

  class Cache {
    var current: Option<Snapshot>
    /** Every list the store has answered with, in order. */
    ghost var lists: seq<seq<Listed>>

    ghost predicate Valid()
      reads this
    {
      current == if lists == [] then None else Some(SnapshotOf(lists[|lists| - 1]))
    }

    constructor ()
      ensures Valid() && lists == []
    {
      current, lists := None, [];
    }

    /** refresh: index the whole list, then swap the pointer; a failed read leaves everything as it was. */
    method Refresh(answer: Option<seq<Listed>>) returns (ok: bool)
      requires Valid()
      modifies this
      ensures Valid() && ok == answer.Some?
      ensures ok ==> lists == old(lists) + [answer.value]
      ensures !ok ==> lists == old(lists) && current == old(current)
    {
      if answer.None? {
        return false;
      }
      var polls := answer.value;
      var snap := Snapshot(map[], map[]);
      for i := 0 to |polls|
        invariant snap == SnapshotOf(polls[..i])
      {
        assert polls[..i + 1][..i] == polls[..i];
        var cfg := HotOf(polls[i]);
        if cfg.Some? {
          snap := Snapshot(snap.bySlug[cfg.value.slug := cfg.value], snap.byId[cfg.value.id := cfg.value]);
        }
      }
      assert polls[..|polls|] == polls;
      current := Some(snap);
      lists := lists + [polls];
      ok := true;
    }

    /** BySlug: the answer of the latest whole list, and nothing before the first one. */
    method BySlug(slug: string) returns (r: Option<HotConfig>)
      requires Valid()
      ensures lists == [] ==> r == None
      ensures r.Some? ==> lists != [] && r.value in UsableOf(lists[|lists| - 1]) && r.value.slug == slug
      ensures lists != [] && r.None? ==> forall h :: h in UsableOf(lists[|lists| - 1]) ==> h.slug != slug
    {
      if current.None? {
        return None;
      }
      var polls := lists[|lists| - 1];
      SnapshotContents(polls);
      Lookup(UsableOf(polls), SlugOf, current.value.bySlug, slug);
      r := if slug in current.value.bySlug then Some(current.value.bySlug[slug]) else None;
    }

    method ByID(id: PollId) returns (r: Option<HotConfig>)
      requires Valid()
      ensures lists == [] ==> r == None
      ensures r.Some? ==> lists != [] && r.value in UsableOf(lists[|lists| - 1]) && r.value.id == id
      ensures lists != [] && r.None? ==> forall h :: h in UsableOf(lists[|lists| - 1]) ==> h.id != id
    {
      if current.None? {
        return None;
      }
      var polls := lists[|lists| - 1];
      SnapshotContents(polls);
      Lookup(UsableOf(polls), IdOf, current.value.byId, id);
      r := if id in current.value.byId then Some(current.value.byId[id]) else None;
    }
  }
}
