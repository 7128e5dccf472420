/** Reading counter hashes back: mergeCounters, for hashes of any content and in any iteration order. */
module Counters {
  import opened Aggregates
  import opened Ledgers
  import opened Texts
  import opened Tallies

  /** The counter a field stands for: an option index, or 256 for the ballots. */
  function TargetOf(field: string): Option<nat> {
    if field == "b" then Some(256)
    else
      var i := ParseUint8(field);
      if i.None? then None else Some(i.value as nat)
  }

  /** What one field adds to one counter. */
  function Share(fields: map<string, string>, f: string, target: nat): int
    requires f in fields
  {
    if TargetOf(f) == Some(target) && ParseInt64(fields[f]).Some? then ParseInt64(fields[f]).value else 0
  }

  /** The sum over a set of fields; which element is taken first makes no difference. */
  ghost function Folded(fields: map<string, string>, names: set<string>, target: nat): int
    requires names <= fields.Keys
    decreases |names|
  {
    if names == {} then 0
    else
      var f :| f in names;
      Share(fields, f, target) + Folded(fields, names - {f}, target)
  }

  lemma {:induction false} FoldedAnyOrder(fields: map<string, string>, names: set<string>, f: string, target: nat)
    requires names <= fields.Keys && f in names
    ensures Folded(fields, names, target) == Share(fields, f, target) + Folded(fields, names - {f}, target)
    decreases |names|
  {
    var g :| g in names &&
      Folded(fields, names, target) == Share(fields, g, target) + Folded(fields, names - {g}, target);
    if g != f {
      FoldedAnyOrder(fields, names - {g}, f, target);
      FoldedAnyOrder(fields, names - {f}, g, target);
      assert names - {f} - {g} == names - {g} - {f};
    }
  }

  ghost predicate Readable(fields: map<string, string>) {
    forall f :: f in fields ==> ParseInt64(fields[f]).Some? && TargetOf(f).Some?
  }

  ghost predicate Mentions(fields: map<string, string>, names: set<string>, i: uint8) {
    exists f :: f in names && f in fields && TargetOf(f) == Some(i)
  }

  /** Every counter of out raised by what the fields say, and no other change. */
  ghost predicate Merged(fields: map<string, string>, out: Aggregate, res: Aggregate) {
    && res.ballots == out.ballots + Folded(fields, fields.Keys, 256)
    && (forall i: uint8 :: Get(res, i) == Get(out, i) + Folded(fields, fields.Keys, i))
    && (forall i: uint8 :: i in res.votes <==> i in out.votes || Mentions(fields, fields.Keys, i))
  }

  /** Whatever order the map is iterated in, the outcome is the same; any unreadable field fails the whole read. */
  method MergeCounters(out: Aggregate, fields: map<string, string>) returns (ok: bool, res: Aggregate)
    ensures ok <==> Readable(fields)
    ensures ok ==> Merged(fields, out, res)
  {
    res := out;
    var rest := fields.Keys;
    while rest != {}
      invariant rest <= fields.Keys
      invariant forall f :: f in fields && f !in rest ==> ParseInt64(fields[f]).Some? && TargetOf(f).Some?
      invariant res.ballots + Folded(fields, rest, 256) == out.ballots + Folded(fields, fields.Keys, 256)
      invariant forall i: uint8 :: Get(res, i) + Folded(fields, rest, i) == Get(out, i) + Folded(fields, fields.Keys, i)
      invariant forall i: uint8 :: i in res.votes <==> i in out.votes || Mentions(fields, fields.Keys - rest, i)
      decreases rest
    {
      var f :| f in rest;
      var n := ParseInt64(fields[f]);
      if n.None? {
        return false, res;
      }
      forall target: nat
        ensures Folded(fields, rest, target) == Share(fields, f, target) + Folded(fields, rest - {f}, target)
      {
        FoldedAnyOrder(fields, rest, f, target);
      }
      ghost var before, seen := res, fields.Keys - rest;
      if f == "b" {
        res := res.(ballots := res.ballots + n.value);
      } else {
        var i := ParseUint8(f);
        if i.None? {
          return false, res;
        }
        res := Add(res, i.value, n.value);
      }
      rest := rest - {f};
      assert fields.Keys - rest == seen + {f};
      MentionsOneMore(fields, seen, f);
    }
    assert fields.Keys - rest == fields.Keys;
    ok := true;
  }

  lemma MentionsOneMore(fields: map<string, string>, names: set<string>, f: string)
    requires f in fields
    ensures forall i: uint8 ::
              Mentions(fields, names + {f}, i) <==> Mentions(fields, names, i) || TargetOf(f) == Some(i)
  {
    forall i: uint8
      ensures Mentions(fields, names + {f}, i) <==> Mentions(fields, names, i) || TargetOf(f) == Some(i)
    {
      if Mentions(fields, names, i) {
        var g :| g in names && g in fields && TargetOf(g) == Some(i);
        assert g in names + {f};
      }
      if TargetOf(f) == Some(i) {
        assert f in names + {f};
      }
    }
  }

  // ---- Reading what the script wrote ----

  ghost function TextOf(fields: map<string, int>): map<string, string>
    requires forall f :: f in fields ==> fields[f] >= 0
  {
    map f | f in fields :: Decimal(fields[f])
  }

  /** Only the field that names a counter contributes to it. */
  lemma {:induction false} FoldedSingle(fields: map<string, string>, names: set<string>, f: string, target: nat)
    requires names <= fields.Keys
    requires forall g :: g in names && g != f ==> TargetOf(g) != Some(target)
    ensures Folded(fields, names, target) == if f in names then Share(fields, f, target) else 0
    decreases |names|
  {
    if names != {} {
      var g :| g in names;
      FoldedAnyOrder(fields, names, g, target);
      FoldedSingle(fields, names - {g}, f, target);
    }
  }

  ghost predicate FitsInt64(a: Aggregate) {
    && 0 <= a.ballots <= 0x7fff_ffff_ffff_ffff
    && forall i: uint8 :: 0 <= Get(a, i) <= 0x7fff_ffff_ffff_ffff
  }

  lemma WrittenFieldReadable(a: Aggregate, f: string)
    requires FitsInt64(a) && f in FieldsOf(a)
    ensures FieldsOf(a)[f] >= 0
    ensures ParseInt64(Decimal(FieldsOf(a)[f])) == Some(FieldsOf(a)[f])
    ensures TargetOf(f).Some?
  {
    FieldAt(a, f);
    CounterRoundTrip(FieldsOf(a)[f]);
  }

  lemma WrittenTargets(a: Aggregate, f: string, i: uint8)
    requires f in FieldsOf(a)
    ensures TargetOf(f) == Some(i) <==> f == Decimal(i)
    ensures TargetOf(f) == Some(256) <==> f == "b"
  {
    FieldAt(a, f);
    FieldRoundTrip(i);
  }

  lemma WrittenOptionSum(a: Aggregate, fields: map<string, string>, i: uint8)
    requires FitsInt64(a)
    requires forall f :: f in FieldsOf(a) ==> FieldsOf(a)[f] >= 0
    requires fields == TextOf(FieldsOf(a))
    ensures Folded(fields, fields.Keys, i) == Get(a, i)
    ensures Mentions(fields, fields.Keys, i) <==> i in a.votes
  {
    forall g | g in fields && g != Decimal(i) ensures TargetOf(g) != Some(i as nat) { WrittenTargets(a, g, i); }
    FoldedSingle(fields, fields.Keys, Decimal(i), i);
    FieldRoundTrip(i);
    FieldAt(a, Decimal(i));
    if Decimal(i) in fields {
      WrittenFieldReadable(a, Decimal(i));
    }
  }

  lemma WrittenBallotSum(a: Aggregate, fields: map<string, string>)
    requires FitsInt64(a)
    requires forall f :: f in FieldsOf(a) ==> FieldsOf(a)[f] >= 0
    requires fields == TextOf(FieldsOf(a))
    ensures Folded(fields, fields.Keys, 256) == a.ballots
  {
    forall g | g in fields && g != "b" ensures TargetOf(g) != Some(256) { WrittenTargets(a, g, 0); }
    FoldedSingle(fields, fields.Keys, "b", 256);
    FieldAt(a, "b");
    WrittenFieldReadable(a, "b");
  }

  /** A hash the script wrote reads back as exactly the tally it stands for, added to what was read before. */
  lemma WrittenReadsBack(a: Aggregate, fields: map<string, string>, out: Aggregate, res: Aggregate)
    requires FitsInt64(a)
    requires forall f :: f in FieldsOf(a) ==> FieldsOf(a)[f] >= 0
    requires fields == TextOf(FieldsOf(a))
    requires Merged(fields, out, res)
    ensures res == Sum(out, a)
  {
    WrittenBallotSum(a, fields);
    var sum := Sum(out, a);
    forall i: uint8
      ensures i in res.votes <==> i in sum.votes
      ensures Get(res, i) == Get(sum, i)
    {
      WrittenOptionSum(a, fields, i);
      SumAt(out, a, i);
    }
    assert res.votes.Keys == sum.votes.Keys;
    assert forall i :: i in res.votes ==> res.votes[i] == Get(res, i);
    assert res.votes == sum.votes;
  }

  lemma WrittenReadable(a: Aggregate, fields: map<string, string>)
    requires FitsInt64(a)
    requires forall f :: f in FieldsOf(a) ==> FieldsOf(a)[f] >= 0
    requires fields == TextOf(FieldsOf(a))
    ensures Readable(fields)
  {
    forall f | f in fields ensures ParseInt64(fields[f]).Some? && TargetOf(f).Some? { WrittenFieldReadable(a, f); }
  }

  /** An absent hash adds nothing. */
  lemma AbsentReadsBack(out: Aggregate, res: Aggregate)
    requires Merged(map[], out, res)
    ensures res == Sum(out, EMPTY)
  {
    var sum := Sum(out, EMPTY);
    assert forall i: uint8 :: !Mentions(map[], {}, i);
    assert res.votes.Keys == sum.votes.Keys;
    forall i | i in res.votes ensures res.votes[i] == sum.votes[i] {
      assert res.votes[i] == Get(res, i);
      assert Folded(map[], {}, i) == 0;
    }
    assert res.votes == sum.votes;
  }
}
