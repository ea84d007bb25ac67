/** The part of WHATWG `URLSearchParams` the relays use: an ordered list of name-value
    pairs, `get`, and `set`, which overwrites the first pair of a name and drops the
    others. */
module SearchParams {
  import opened Wrappers

  type Params = seq<(string, string)>

  predicate HasName(ps: Params, name: string) {
    exists i :: 0 <= i < |ps| && ps[i].0 == name
  }

  /** `get`: the value of the first pair with the name. */
  function Get(ps: Params, name: string): Option<string> {
    if ps == [] then None
    else if ps[0].0 == name then Some(ps[0].1)
    else Get(ps[1..], name)
  }

  /** The value of the last pair with the name. */
  function LastValue(ps: Params, name: string): Option<string>
    decreases |ps|
  {
    if ps == [] then None
    else if ps[|ps| - 1].0 == name then Some(ps[|ps| - 1].1)
    else LastValue(ps[..|ps| - 1], name)
  }

  /** No name occurs twice. */
  predicate DistinctNames(ps: Params) {
    forall i, j :: 0 <= i < j < |ps| ==> ps[i].0 != ps[j].0
  }

  /** The pairs whose name is not `name`, in order. */
  function Without(ps: Params, name: string): Params {
    if ps == [] then []
    else if ps[0].0 == name then Without(ps[1..], name)
    else [ps[0]] + Without(ps[1..], name)
  }

  /** `set(name, value)`. */
  function SetParam(ps: Params, name: string, value: string): Params {
    if ps == [] then [(name, value)]
    else if ps[0].0 == name then [(name, value)] + Without(ps[1..], name)
    else [ps[0]] + SetParam(ps[1..], name, value)
  }

  lemma {:induction false} WithoutRemoves(ps: Params, name: string)
    ensures forall p :: p in Without(ps, name) <==> p in ps && p.0 != name
    ensures DistinctNames(ps) ==> DistinctNames(Without(ps, name))
    ensures forall other :: other != name ==> Get(Without(ps, name), other) == Get(ps, other)
  {
    if ps != [] {
      WithoutRemoves(ps[1..], name);
      if DistinctNames(ps) {
        assert DistinctNames(ps[1..]) by {
          forall i, j | 0 <= i < j < |ps[1..]| ensures ps[1..][i].0 != ps[1..][j].0 {
            assert ps[1..][i] == ps[i + 1] && ps[1..][j] == ps[j + 1];
          }
        }
        if ps[0].0 != name {
          var w := Without(ps[1..], name);
          forall j | 0 <= j < |w| ensures ps[0].0 != w[j].0 {
            assert w[j] in ps[1..];
          }
          DistinctCons(ps[0], w);
        }
      }
    }
  }

  /** A pair can go in front of a list of distinct names it does not share. */
  lemma DistinctCons(p: (string, string), ps: Params)
    requires DistinctNames(ps)
    requires forall j :: 0 <= j < |ps| ==> p.0 != ps[j].0
    ensures DistinctNames([p] + ps)
  {
    var s := [p] + ps;
    forall i, j | 0 <= i < j < |s| ensures s[i].0 != s[j].0 {
      if i > 0 {
        assert s[i] == ps[i - 1] && s[j] == ps[j - 1];
      } else {
        assert s[j] == ps[j - 1];
      }
    }
  }

  /** After `set`, `get` of that name yields the new value, other names are untouched,
      the name occurs exactly once, and the set of names gains just that name. */
  lemma {:induction false} SetParamEffect(ps: Params, name: string, value: string)
    ensures Get(SetParam(ps, name, value), name) == Some(value)
    ensures forall other :: other != name ==> Get(SetParam(ps, name, value), other) == Get(ps, other)
    ensures forall n :: HasName(SetParam(ps, name, value), n) <==> HasName(ps, n) || n == name
    ensures DistinctNames(ps) ==> DistinctNames(SetParam(ps, name, value))
  {
    if ps == [] {
    } else if ps[0].0 == name {
      SetParamAtHead(ps, name, value);
    } else {
      SetParamEffect(ps[1..], name, value);
      SetParamPastHead(ps, name, value);
    }
  }

  /** The tail of a list of distinct names has distinct names without its head's. */
  lemma DistinctTail(ps: Params)
    requires ps != [] && DistinctNames(ps)
    ensures DistinctNames(ps[1..]) && !HasName(ps[1..], ps[0].0)
  {
    forall i, j | 0 <= i < j < |ps[1..]| ensures ps[1..][i].0 != ps[1..][j].0 {
      assert ps[1..][i] == ps[i + 1] && ps[1..][j] == ps[j + 1];
    }
    forall k | 0 <= k < |ps[1..]| ensures ps[1..][k].0 != ps[0].0 {
      assert ps[1..][k] == ps[k + 1];
    }
  }

  /** `set` on a list whose first pair has the name: that pair takes the value and the
      later pairs of the name go. */
  lemma SetParamAtHead(ps: Params, name: string, value: string)
    requires ps != [] && ps[0].0 == name
    ensures Get(SetParam(ps, name, value), name) == Some(value)
    ensures forall other :: other != name ==> Get(SetParam(ps, name, value), other) == Get(ps, other)
    ensures forall n :: HasName(SetParam(ps, name, value), n) <==> HasName(ps, n) || n == name
    ensures DistinctNames(ps) ==> DistinctNames(SetParam(ps, name, value))
  {
    var r := SetParam(ps, name, value);
    var w := Without(ps[1..], name);
    assert r == [(name, value)] + w;
    WithoutRemoves(ps[1..], name);
    forall n ensures HasName(r, n) <==> HasName(ps, n) || n == name {
      if HasName(ps, n) && n != name {
        var i :| 0 <= i < |ps| && ps[i].0 == n;
        assert ps[i] in w;
        var j :| 0 <= j < |w| && w[j] == ps[i];
        assert r[j + 1] == w[j];
      }
      if HasName(r, n) && n != name {
        var i :| 0 <= i < |r| && r[i].0 == n;
        assert r[i] == w[i - 1];
        assert r[i] in w;
        var j :| 0 <= j < |ps| && ps[j] == r[i];
      }
      if n == name {
        assert r[0].0 == name && ps[0].0 == name;
      }
    }
    if DistinctNames(ps) {
      DistinctTail(ps);
      forall j | 0 <= j < |w| ensures name != w[j].0 {
        assert w[j] in w;
      }
      DistinctCons((name, value), w);
    }
  }

  /** A name occurs in a list with a head pair iff it is the head's or occurs in the rest. */
  lemma HasNameCons(p: (string, string), ps: Params, n: string)
    ensures HasName([p] + ps, n) <==> p.0 == n || HasName(ps, n)
  {
    var s := [p] + ps;
    assert s[0] == p;
    if HasName(ps, n) {
      var i :| 0 <= i < |ps| && ps[i].0 == n;
      assert s[i + 1] == ps[i];
    }
    if HasName(s, n) && p.0 != n {
      var i :| 0 <= i < |s| && s[i].0 == n;
      assert ps[i - 1] == s[i];
    }
  }

  /** `set` on a list whose first pair has another name keeps that pair and sets the
      name in the rest. */
  lemma SetParamPastHead(ps: Params, name: string, value: string)
    requires ps != [] && ps[0].0 != name
    requires var rest := SetParam(ps[1..], name, value);
      && Get(rest, name) == Some(value)
      && (forall other :: other != name ==> Get(rest, other) == Get(ps[1..], other))
      && (forall n :: HasName(rest, n) <==> HasName(ps[1..], n) || n == name)
      && (DistinctNames(ps[1..]) ==> DistinctNames(rest))
    ensures Get(SetParam(ps, name, value), name) == Some(value)
    ensures forall other :: other != name ==> Get(SetParam(ps, name, value), other) == Get(ps, other)
    ensures forall n :: HasName(SetParam(ps, name, value), n) <==> HasName(ps, n) || n == name
    ensures DistinctNames(ps) ==> DistinctNames(SetParam(ps, name, value))
  {
    var r := SetParam(ps, name, value);
    var rest := SetParam(ps[1..], name, value);
    assert r == [ps[0]] + rest;
    assert ps == [ps[0]] + ps[1..];
    forall n ensures HasName(r, n) <==> HasName(ps, n) || n == name {
      HasNameCons(ps[0], rest, n);
      HasNameCons(ps[0], ps[1..], n);
    }
    if DistinctNames(ps) {
      DistinctTail(ps);
      forall j | 0 <= j < |rest| ensures ps[0].0 != rest[j].0 {
        assert HasName(rest, rest[j].0);
      }
      DistinctCons(ps[0], rest);
    }
  }

  /** What `get` yields after setting every pair of `incoming` in order onto `target`: the
      last incoming value of a name, or the target's own value for names not incoming. */
  function CopiedValue(target: Params, incoming: Params, name: string): Option<string> {
    if LastValue(incoming, name).Some? then LastValue(incoming, name) else Get(target, name)
  }

  /** The name of a pair occurs in the list up to and including it. */
  lemma LastValueSnoc(ps: Params, p: (string, string), name: string)
    ensures LastValue(ps + [p], name) == if p.0 == name then Some(p.1) else LastValue(ps, name)
    ensures HasName(ps + [p], name) <==> HasName(ps, name) || p.0 == name
  {
    assert (ps + [p])[..|ps|] == ps;
    if HasName(ps, name) {
      var i :| 0 <= i < |ps| && ps[i].0 == name;
      assert (ps + [p])[i] == ps[i];
    }
    if HasName(ps + [p], name) && p.0 != name {
      var i :| 0 <= i < |ps + [p]| && (ps + [p])[i].0 == name;
      assert ps[i] == (ps + [p])[i];
    }
  }

  /** `url.searchParams.forEach((value, key) => target.searchParams.set(key, value))`:
      every incoming name ends up with its last incoming value, other names keep theirs,
      the names are those of both lists, and distinct names stay distinct. */
  method CopyParams(target: Params, incoming: Params) returns (result: Params)
    ensures forall name :: Get(result, name) == CopiedValue(target, incoming, name)
    ensures forall name :: HasName(result, name) <==> HasName(target, name) || HasName(incoming, name)
    ensures DistinctNames(target) ==> DistinctNames(result)
  {
    result := target;
    var i := 0;
    while i < |incoming|
      invariant 0 <= i <= |incoming|
      invariant forall name :: Get(result, name) == CopiedValue(target, incoming[..i], name)
      invariant forall name :: HasName(result, name) <==> HasName(target, name) || HasName(incoming[..i], name)
      invariant DistinctNames(target) ==> DistinctNames(result)
    {
      var (name, value) := incoming[i];
      SetParamEffect(result, name, value);
      assert incoming[..i + 1] == incoming[..i] + [incoming[i]];
      forall n ensures LastValue(incoming[..i + 1], n) == (if name == n then Some(value) else LastValue(incoming[..i], n))
        && (HasName(incoming[..i + 1], n) <==> HasName(incoming[..i], n) || name == n)
      {
        LastValueSnoc(incoming[..i], incoming[i], n);
      }
      result := SetParam(result, name, value);
      i := i + 1;
    }
    assert incoming[..i] == incoming;
  }

  /** `LastValue` finds a value exactly for the names present. */
  lemma {:induction false} LastValuePresent(ps: Params, name: string)
    ensures LastValue(ps, name).Some? <==> HasName(ps, name)
    decreases |ps|
  {
    if ps != [] {
      var init := ps[..|ps| - 1];
      LastValuePresent(init, name);
      assert ps == init + [ps[|ps| - 1]];
      LastValueSnoc(init, ps[|ps| - 1], name);
    }
  }
}
