/**
 The audit trail's diff of two records: which fields differ, with the old and the new
 value. A field may be missing, undefined or null, all three of which count as null.
 */
module AuditDiff {
  import opened Wrappers
  import opened CanonicalJson

  /** A record: a field may be present and undefined. */
  type Record = map<string, Option<Json>>

  datatype Change = Change(oldValue: Json, newValue: Json)

  predicate WellFormedRecord(r: Record) {
    forall k | k in r :: r[k].Some? ==> WellFormed(r[k].value)
  }

  /** `record[key]`; None is undefined. */
  function Get(r: Record, k: string): Option<Json> {
    if k in r then r[k] else None
  }

  /** `value ?? null`. */
  function OrNull(v: Option<Json>): Json {
    if v.Some? then v.value else Null
  }

  function TypeOf(j: Json): string {
    match j
    case Null => "object"
    case Bool(_) => "boolean"
    case Num(_) => "number"
    case Str(_) => "string"
    case Arr(_) => "object"
    case Obj(_) => "object"
  }

  /**
   `shallowEqual`. Its first test is by identity for arrays and objects: one value is the
   same object only if it has the same content, so that either way the result is that below.
   */
  function ShallowEqual(a: Option<Json>, b: Option<Json>): bool {
    if a == b then true
    else if OrNull(a).Null? && OrNull(b).Null? then true
    else if OrNull(a).Null? || OrNull(b).Null? then false
    else if TypeOf(a.value) != TypeOf(b.value) then false
    else if TypeOf(a.value) == "object" then StableStringify(a.value) == StableStringify(b.value)
    else false
  }

  lemma {:induction false} SameRefl(j: Json)
    requires WellFormed(j)
    ensures Same(j, j)
  {
    SameIffNormal(j, j);
  }

  /** `shallowEqual` is equality up to key order at every depth, and missing, undefined and null are one. */
  lemma ShallowEqualIff(a: Option<Json>, b: Option<Json>)
    requires WellFormed(OrNull(a)) && WellFormed(OrNull(b))
    ensures ShallowEqual(a, b) <==> Same(OrNull(a), OrNull(b))
  {
    SameRefl(OrNull(a));
    if a.Some? && b.Some? {
      StableStringifyIff(a.value, b.value);
    }
  }

  /** The fields in which two records differ. */
  ghost predicate Differs(before: Record, after: Record, k: string) {
    !Same(OrNull(Get(before, k)), OrNull(Get(after, k)))
  }

  ghost predicate Equivalent(a: Record, b: Record) {
    forall k :: !Differs(a, b, k)
  }

  /** What a diff must be: the differing fields and no others, each with its two values. */
  ghost predicate IsDiff(diff: map<string, Change>, before: Record, after: Record) {
    && (forall k :: k in diff <==> Differs(before, after, k))
    && forall k | k in diff :: diff[k] == Change(OrNull(Get(before, k)), OrNull(Get(after, k)))
  }

  ghost predicate FoundIn(keys: set<string>, found: map<string, Change>, before: Record, after: Record) {
    && (forall k :: k in found <==> k in keys && Differs(before, after, k))
    && forall k | k in found :: found[k] == Change(OrNull(Get(before, k)), OrNull(Get(after, k)))
  }

  lemma AllFound(found: map<string, Change>, before: Record, after: Record)
    requires FoundIn(before.Keys + after.Keys, found, before, after)
    ensures IsDiff(found, before, after)
    ensures |found| == 0 <==> Equivalent(before, after)
  {
    forall k | Differs(before, after, k) ensures k in found {
      assert k in before.Keys + after.Keys;
    }
    if |found| == 0 {
      assert found == map[];
    } else {
      var k :| k in found;
      assert Differs(before, after, k);
    }
  }

  /** One more key looked at. */
  lemma FoundMore(keys: set<string>, found: map<string, Change>, before: Record, after: Record, key: string)
    requires FoundIn(keys, found, before, after) && key !in keys
    requires WellFormedRecord(before) && WellFormedRecord(after)
    ensures var oldVal, newVal := Get(before, key), Get(after, key);
            var more :=
              if ShallowEqual(oldVal, newVal) then found
              else found[key := Change(OrNull(oldVal), OrNull(newVal))];
            FoundIn(keys + {key}, more, before, after)
  {
    ShallowEqualIff(Get(before, key), Get(after, key));
  }

  /** `computeDiff`. */
  method ComputeDiff(before: Record, after: Record) returns (diff: Option<map<string, Change>>)
    requires WellFormedRecord(before) && WellFormedRecord(after)
    ensures diff.Some? ==> IsDiff(diff.value, before, after)
    ensures diff.Some? ==> forall k | k in diff.value ::
              && diff.value[k].oldValue == (if k in before && before[k].Some? then before[k].value else Null)
              && diff.value[k].newValue == (if k in after && after[k].Some? then after[k].value else Null)
    ensures diff.None? <==> Equivalent(before, after)
  {
    var found: map<string, Change> := map[];
    var allKeys := before.Keys + after.Keys;
    var left := allKeys;
    while left != {}
      invariant left <= allKeys
      invariant FoundIn(allKeys - left, found, before, after)
    {
      var key :| key in left;
      var oldVal, newVal := Get(before, key), Get(after, key);
      FoundMore(allKeys - left, found, before, after, key);
      assert allKeys - (left - {key}) == (allKeys - left) + {key};
      left := left - {key};
      if !ShallowEqual(oldVal, newVal) {
        found := found[key := Change(OrNull(oldVal), OrNull(newVal))];
      }
    }
    assert allKeys - left == allKeys;
    AllFound(found, before, after);
    diff := if |found| > 0 then Some(found) else None;
  }

  // ----------------------------------------------------------------- patching

  function NewValues(diff: map<string, Change>): Record {
    map k | k in diff :: Some(diff[k].newValue)
  }

  function OldValues(diff: map<string, Change>): Record {
    map k | k in diff :: Some(diff[k].oldValue)
  }

  /**
   Writing the new values over the record before gives the record after, and the old values
   over the latter the former.
   */
  lemma DiffPatchesBothWays(diff: map<string, Change>, before: Record, after: Record)
    requires IsDiff(diff, before, after) && WellFormedRecord(before) && WellFormedRecord(after)
    ensures Equivalent(before + NewValues(diff), after)
    ensures Equivalent(before, after + OldValues(diff))
  {
    forall k ensures !Differs(before + NewValues(diff), after, k) && !Differs(before, after + OldValues(diff), k) {
      SameRefl(OrNull(Get(before, k)));
      SameRefl(OrNull(Get(after, k)));
      if k in diff {
        assert Get(before + NewValues(diff), k) == Some(OrNull(Get(after, k)));
        assert Get(after + OldValues(diff), k) == Some(OrNull(Get(before, k)));
      } else {
        assert Get(before + NewValues(diff), k) == Get(before, k);
        assert Get(after + OldValues(diff), k) == Get(after, k);
      }
    }
  }

  /** No smaller set of changes would do: leave out a field and the patch misses. */
  lemma DiffIsLeast(diff: map<string, Change>, before: Record, after: Record, part: map<string, Change>)
    requires IsDiff(diff, before, after) && WellFormedRecord(before) && WellFormedRecord(after)
    requires Equivalent(before + NewValues(part), after)
    ensures diff.Keys <= part.Keys
  {
    forall k | k in diff ensures k in part {
      assert !Differs(before + NewValues(part), after, k);
      assert k !in part ==> Get(before + NewValues(part), k) == Get(before, k);
    }
  }
}
