/** The Redis commands the vote script uses, with key expiry, and the script itself. */
module Redis {
  import opened Domain
  import opened Texts

  /** A dedup marker, or a hash of counters. A hash has no deadline until EXPIRE sets one. */
  datatype Entry =
    | Flag(deadline: Time)
    | Hash(fields: map<string, int>, expiry: Option<Time>)

  predicate Outlives(e: Entry, now: Time) {
    match e
    case Flag(deadline) => now <= deadline
    case Hash(_, expiry) => expiry.None? || now <= expiry.value
  }

  type Db = map<string, Entry>

  /** What a command sees under a key: expired entries are absent. */
  function Live(db: Db, now: Time, key: string): Option<Entry> {
    if key in db && Outlives(db[key], now) then Some(db[key]) else None
  }

  function FieldValue(fields: map<string, int>, f: string): int {
    if f in fields then fields[f] else 0
  }

  /** HINCRBY by one on each of the names, in order. */
  function Bumped(fields: map<string, int>, names: seq<string>): map<string, int> {
    if names == [] then fields
    else
      var init := Bumped(fields, names[..|names| - 1]);
      var f := names[|names| - 1];
      init[f := FieldValue(init, f) + 1]
  }

  /** The fields HINCRBY starts from. */
  function BaseFields(db: Db, now: Time, key: string): map<string, int> {
    var e := Live(db, now, key);
    if e.Some? && e.value.Hash? then e.value.fields else map[]
  }

  predicate HoldsFlag(db: Db, now: Time, key: string) {
    Live(db, now, key).Some? && Live(db, now, key).value.Flag?
  }

  function ExpiryOf(db: Db, now: Time, key: string): Option<Time> {
    var e := Live(db, now, key);
    if e.Some? && e.value.Hash? then e.value.expiry else None
  }

  /** The store after HINCRBY by one on each of the names under one key. */
  function AfterIncrs(db: Db, now: Time, key: string, names: seq<string>): Db {
    if names == [] then db
    else db[key := Hash(Bumped(BaseFields(db, now, key), names), ExpiryOf(db, now, key))]
  }

  lemma MoreIncrs(db: Db, now: Time, key: string, names: seq<string>, f: string)
    requires !HoldsFlag(db, now, key)
    requires ExpiryOf(db, now, key).Some? ==> now <= ExpiryOf(db, now, key).value
    ensures AfterIncrs(AfterIncrs(db, now, key, names), now, key, [f]) == AfterIncrs(db, now, key, names + [f])
    ensures !HoldsFlag(AfterIncrs(db, now, key, names), now, key)
  {
    BumpedOne(BaseFields(AfterIncrs(db, now, key, names), now, key), f);
    assert (names + [f])[..|names|] == names;
  }

  lemma BumpedOne(fields: map<string, int>, f: string)
    ensures Bumped(fields, [f]) == fields[f := FieldValue(fields, f) + 1]
  {
    assert [f][..0] == [];
  }

  /** Failed: the script stopped with an error; what it had done before is not undone. */
  datatype Outcome = Replied(code: int) | Failed

  /** The effect of the vote script as one value-level step. */
  function ScriptDb(db: Db, now: Time, dedup: string, counter: string, ttl: nat, names: seq<string>): Db {
    if Live(db, now, dedup).Some? then db
    else
      var marked := db[dedup := Flag(now + ttl * SECOND)];
      if HoldsFlag(marked, now, counter) then marked
      else marked[counter := Hash(Bumped(BaseFields(marked, now, counter), names + ["b"]), Some(now + ttl * SECOND))]
  }

  function ScriptOutcome(db: Db, now: Time, dedup: string, counter: string, ttl: nat): Outcome {
    if Live(db, now, dedup).Some? then Replied(2)
    else if HoldsFlag(db[dedup := Flag(now + ttl * SECOND)], now, counter) then Failed
    else Replied(1)
  }

  class Store {
    var db: Db
    var now: Time

    constructor (start: Time)
      ensures db == map[] && now == start
    {
      db, now := map[], start;
    }

    method Wait(dt: nat)
      modifies this
      ensures now == old(now) + dt && db == old(db)
    {
      now := now + dt;
    }

    /** SET key 1 NX EX ttl. */
    method SetNxEx(key: string, ttl: nat) returns (created: bool)
      modifies this
      ensures now == old(now)
      ensures created <==> Live(old(db), now, key).None?
      ensures db == if created then old(db)[key := Flag(now + ttl * SECOND)] else old(db)
    {
      created := Live(db, now, key).None?;
      if created {
        db := db[key := Flag(now + ttl * SECOND)];
      }
    }

    /** HINCRBY key field 1; refused on a key of another type. */
    method HIncr(key: string, field: string) returns (ok: bool)
      modifies this
      ensures now == old(now)
      ensures ok <==> !HoldsFlag(old(db), now, key)
      ensures db == if ok then AfterIncrs(old(db), now, key, [field]) else old(db)
    {
      var e := Live(db, now, key);
      ok := e.None? || e.value.Hash?;
      if ok {
        var fields := BaseFields(db, now, key);
        BumpedOne(fields, field);
        db := db[key := Hash(fields[field := FieldValue(fields, field) + 1], if e.Some? then e.value.expiry else None)];
      }
    }

    /** EXPIRE on a hash. */
    method Expire(key: string, ttl: nat)
      requires Live(db, now, key).Some? && db[key].Hash?
      modifies this
      ensures now == old(now)
      ensures db == old(db)[key := Hash(old(db)[key].fields, Some(now + ttl * SECOND))]
    {
      db := db[key := Hash(db[key].fields, Some(now + ttl * SECOND))];
    }

    /** HGETALL: the live fields with their values in decimal; empty for an absent key. */
    method HGetAll(key: string) returns (ok: bool, fields: map<string, string>)
      requires forall f :: f in BaseFields(db, now, key) ==> BaseFields(db, now, key)[f] >= 0
      ensures ok <==> Live(db, now, key).None? || Live(db, now, key).value.Hash?
      ensures ok ==> fields == map f | f in BaseFields(db, now, key) :: Decimal(BaseFields(db, now, key)[f])
    {
      var e := Live(db, now, key);
      ok := e.None? || e.value.Hash?;
      var base := BaseFields(db, now, key);
      fields := map f | f in base :: Decimal(base[f]);
    }

    /** One HINCRBY after another, up to the first that is refused. */
    method IncrEach(key: string, names: seq<string>) returns (ok: bool)
      modifies this
      ensures now == old(now)
      ensures ok <==> names == [] || !HoldsFlag(old(db), now, key)
      ensures db == if ok then AfterIncrs(old(db), now, key, names) else old(db)
    {
      ok := true;
      for i := 0 to |names|
        invariant now == old(now) && ok
        invariant db == AfterIncrs(old(db), now, key, names[..i])
        invariant i > 0 ==> !HoldsFlag(old(db), now, key)
      {
        assert names[..i + 1] == names[..i] + [names[i]];
        if !HoldsFlag(old(db), now, key) {
          MoreIncrs(old(db), now, key, names[..i], names[i]);
        }
        ok := HIncr(key, names[i]);
        if !ok {
          return;
        }
      }
      assert names[..|names|] == names;
    }

    /** vote.lua: the arguments are the TTL and then the option indexes, all in decimal. */
    method VoteScript(dedup: string, counter: string, args: seq<string>) returns (out: Outcome)
      requires |args| > 0
      modifies this
      ensures now == old(now)
      ensures ParseDigits(args[0]).None? || ParseDigits(args[0]).value == 0 ==> out == Failed && db == old(db)
      ensures ParseDigits(args[0]).Some? && ParseDigits(args[0]).value > 0 ==>
                && out == ScriptOutcome(old(db), now, dedup, counter, ParseDigits(args[0]).value)
                && db == ScriptDb(old(db), now, dedup, counter, ParseDigits(args[0]).value, args[1..])
    {
      var ttl := ParseDigits(args[0]);
      if ttl.None? || ttl.value == 0 {
        return Failed;
      }
      var created := SetNxEx(dedup, ttl.value);
      if !created {
        return Replied(2);
      }
      ghost var marked := db;
      var ok := IncrEach(counter, args[1..]);
      if !ok {
        return Failed;
      }
      if !HoldsFlag(marked, now, counter) {
        MoreIncrs(marked, now, counter, args[1..], "b");
      }
      ok := HIncr(counter, "b");
      if !ok {
        return Failed;
      }
      Expire(counter, ttl.value);
      out := Replied(1);
    }
  }
}
