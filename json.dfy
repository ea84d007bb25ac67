/** The values `JSON.parse` produces, and JavaScript property access on them. Numbers
    are integers here; fractional numbers are not part of this model. */
module JsonValue {

  datatype Json =
    | JNull
    | JBool(b: bool)
    | JNum(n: int)
    | JStr(s: string)
    | JArr(items: seq<Json>)
    | JObj(fields: seq<(string, Json)>)

  /** What `v.key` yields on a value that is not `null`: a value or `undefined`. */
  datatype Prop = Undefined | Value(value: Json)

  /** `fields[i]` is the last member with key `key`. */
  predicate LastWithKey(fields: seq<(string, Json)>, i: int, key: string) {
    0 <= i < |fields| && fields[i].0 == key && forall j :: i < j < |fields| ==> fields[j].0 != key
  }

  /** The member `key` of an object's members. Of repeated keys `JSON.parse` keeps the last. */
  function Lookup(fields: seq<(string, Json)>, key: string): Prop
    decreases |fields|
  {
    if fields == [] then Undefined
    else if fields[|fields| - 1].0 == key then Value(fields[|fields| - 1].1)
    else Lookup(fields[..|fields| - 1], key)
  }

  /** A lookup finds a member iff one has the key, and then the last such member. */
  lemma {:induction false} LookupFindsLast(fields: seq<(string, Json)>, key: string)
    ensures Lookup(fields, key).Value? <==> exists i :: 0 <= i < |fields| && fields[i].0 == key
    ensures Lookup(fields, key).Value? ==>
      exists i :: LastWithKey(fields, i, key) && fields[i].1 == Lookup(fields, key).value
    decreases |fields|
  {
    if fields != [] && fields[|fields| - 1].0 != key {
      var init := fields[..|fields| - 1];
      LookupFindsLast(init, key);
      assert forall i :: 0 <= i < |init| ==> init[i] == fields[i];
      if Lookup(init, key).Value? {
        var i :| LastWithKey(init, i, key) && init[i].1 == Lookup(init, key).value;
        assert LastWithKey(fields, i, key);
      }
    } else if fields != [] {
      assert LastWithKey(fields, |fields| - 1, key);
    }
  }

  /** `v.key` for `v` other than `null` (on `null` JavaScript throws a `TypeError`):
      only objects have the data members read here. */
  function Get(v: Json, key: string): Prop
    requires v != JNull
  {
    if v.JObj? then Lookup(v.fields, key) else Undefined
  }

  /** A later member replaces an earlier one with the same key. */
  lemma LastMemberWins(fields: seq<(string, Json)>, key: string, v: Json)
    ensures Lookup(fields + [(key, v)], key) == Value(v)
  {
    assert (fields + [(key, v)])[|fields|] == (key, v);
  }

  /** Members with other keys do not change a lookup. */
  lemma OtherMemberIgnored(fields: seq<(string, Json)>, key: string, other: string, v: Json)
    requires other != key
    ensures Lookup(fields + [(other, v)], key) == Lookup(fields, key)
  {
    assert (fields + [(other, v)])[..|fields|] == fields;
  }
}
