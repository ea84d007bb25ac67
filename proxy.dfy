/** The serverless relay (api/proxy.js): the `endpoint` check, the copy of the query onto
    the upstream URL, the OPTIONS answer, and how the upstream outcome maps to the
    response status. The upstream request itself is an input. */
module Proxy {
  import opened Wrappers
  import opened Text
  import opened SearchParams

  /** The own properties of `TARGETS`. */
  const TARGETS: map<string, string> := map[
    "alerts" := "https://www.oref.org.il/warningMessages/alert/Alerts.json",
    "history" := "https://www.oref.org.il/warningMessages/alert/History/AlertsHistory.json",
    "history-range" := "https://alerts-history.oref.org.il/Shared/Ajax/GetAlarmsHistory.aspx",
    "cities" := "https://alerts-history.oref.org.il/Shared/Ajax/GetDistricts.aspx"
  ]

  /** The properties every plain object inherits from `Object.prototype`. */
  const INHERITED_KEYS: set<string> := {
    "constructor", "__proto__", "hasOwnProperty", "isPrototypeOf", "propertyIsEnumerable",
    "toString", "toLocaleString", "valueOf", "__defineGetter__", "__defineSetter__",
    "__lookupGetter__", "__lookupSetter__"
  }

  /** A value of the query `url.parse(…, true)` returns: a string, or the array a
      repeated key gives. */
  datatype QueryParam = Single(s: string) | Repeated(items: seq<string>)

  /** The parsed query, an object: its keys are distinct. */
  type Query = seq<(string, QueryParam)>

  predicate DistinctKeys(q: Query) {
    forall i, j :: 0 <= i < j < |q| ==> q[i].0 != q[j].0
  }

  function Lookup(q: Query, key: string): Option<QueryParam> {
    if q == [] then None else if q[0].0 == key then Some(q[0].1) else Lookup(q[1..], key)
  }

  /** How the `endpoint` check ends. */
  datatype EndpointCheck = BadEndpoint | Crash | Target(url: string)

  /** The property name `TARGETS[endpoint]` reads: an array turns into its joined text. */
  function PropertyName(v: QueryParam): string {
    match v
    case Single(s) => s
    case Repeated(items) => JoinComma(items)
  }

  /** `!endpoint`: only a missing or empty value is falsy (an array never is). */
  predicate Falsy(v: Option<QueryParam>) {
    v.None? || v.value == Single("")
  }

  /** The check as written: `TARGETS[endpoint]` also finds the inherited members, which
      are truthy, so they pass; `new URL` of such a value then throws. */
  function CheckEndpointAsWritten(q: Query): EndpointCheck {
    var e := Lookup(q, "endpoint");
    if Falsy(e) then BadEndpoint
    else
      var name := PropertyName(e.value);
      if name in TARGETS then Target(TARGETS[name])
      else if name in INHERITED_KEYS then Crash
      else BadEndpoint
  }

  /** `?endpoint=toString` gets past the check and makes the handler throw, instead of
      being answered 400. */
  lemma InheritedEndpointCrashes()
    ensures CheckEndpointAsWritten([("endpoint", Single("toString"))]) == Crash
  {
    assert "toString" !in TARGETS;
  }

  /** The evident intent: only the four own endpoints pass. */
  function CheckEndpoint(q: Query): EndpointCheck {
    var e := Lookup(q, "endpoint");
    if Falsy(e) then BadEndpoint
    else
      var name := PropertyName(e.value);
      if name in TARGETS then Target(TARGETS[name]) else BadEndpoint
  }

  /** The intended check never throws, passes exactly the listed endpoint names, and
      agrees with the source wherever the source does not throw. */
  lemma CheckEndpointIff(q: Query)
    ensures CheckEndpoint(q) != Crash
    ensures CheckEndpoint(q).Target? <==>
      Lookup(q, "endpoint").Some? && PropertyName(Lookup(q, "endpoint").value) in TARGETS
    ensures CheckEndpointAsWritten(q) != Crash ==> CheckEndpoint(q) == CheckEndpointAsWritten(q)
  {
    assert "" !in TARGETS;
  }

  /** A repeated `endpoint` reads the property named by the joined values, which no
      target has. */
  lemma RepeatedEndpointRejected(a: string, b: string)
    ensures CheckEndpoint([("endpoint", Repeated([a, b]))]) == BadEndpoint
  {
    var name := JoinComma([a, b]);
    assert [a, b][1..] == [b];
    assert JoinComma([b]) == b;
    assert name == a + "," + JoinComma([b]);
    assert name[|a|] == ',';
    assert forall k :: k in TARGETS ==> ',' !in k;
  }

  /** The query names `set` on the upstream URL: every string-valued one but `endpoint`. */
  predicate Copied(name: string, v: Option<QueryParam>) {
    name != "endpoint" && v.Some? && v.value.Single?
  }

  /** What the upstream URL's query yields for a name after the copy. */
  function CopiedValue(q: Query, name: string): Option<string> {
    var v := Lookup(q, name);
    if Copied(name, v) then Some(v.value.s) else None
  }

  lemma LookupSnoc(q: Query, p: (string, QueryParam), name: string)
    requires forall i :: 0 <= i < |q| ==> q[i].0 != p.0
    ensures Lookup(q + [p], name) == if p.0 == name then Some(p.1) else Lookup(q, name)
    decreases |q|
  {
    if q != [] {
      assert (q + [p])[1..] == q[1..] + [p];
      LookupSnoc(q[1..], p, name);
    }
  }

  /** `Object.entries(parsed.query).forEach(...)`: each string-valued entry other than
      `endpoint` is `set` on the target, whose own query is empty. */
  method CopyQuery(q: Query) returns (params: Params)
    requires DistinctKeys(q)
    ensures forall name :: Get(params, name) == CopiedValue(q, name)
    ensures DistinctNames(params)
  {
    params := [];
    var i := 0;
    while i < |q|
      invariant 0 <= i <= |q|
      invariant forall name :: Get(params, name) == CopiedValue(q[..i], name)
      invariant DistinctNames(params)
    {
      var (key, val) := q[i];
      assert q[..i + 1] == q[..i] + [q[i]];
      LookupSnocAll(q, i);
      if key != "endpoint" && val.Single? {
        SetParamEffect(params, key, val.s);
        params := SetParam(params, key, val.s);
      }
      i := i + 1;
    }
    assert q[..i] == q;
  }

  /** One more entry only changes the lookups of its own key. */
  lemma LookupSnocAll(q: Query, i: nat)
    requires DistinctKeys(q) && i < |q|
    ensures forall name :: Lookup(q[..i + 1], name) == if q[i].0 == name then Some(q[i].1) else Lookup(q[..i], name)
    ensures Lookup(q[..i], q[i].0) == None
  {
    assert q[..i + 1] == q[..i] + [q[i]];
    assert forall k :: 0 <= k < |q[..i]| ==> q[..i][k].0 != q[i].0;
    forall name ensures Lookup(q[..i + 1], name) == if q[i].0 == name then Some(q[i].1) else Lookup(q[..i], name) {
      LookupSnoc(q[..i], q[i], name);
    }
    LookupAbsent(q[..i], q[i].0);
  }

  /** A key no entry has is looked up as missing. */
  lemma LookupAbsent(q: Query, key: string)
    requires forall k :: 0 <= k < |q| ==> q[k].0 != key
    ensures Lookup(q, key) == None
    decreases |q|
  {
    if q != [] {
      LookupAbsent(q[1..], key);
    }
  }

  /** What the upstream `https.request` does. */
  datatype Upstream =
    | Answered(statusCode: int, contentType: Option<string>)  // a status code of 0 stands for none
    | RequestFailed
    | TimedOut  // no answer within 12 seconds

  /** The upstream request: always GET, to the target with the copied query. */
  datatype UpstreamRequest = UpstreamRequest(verb: string, target: string, params: Params)

  datatype Response = Response(status: int, headers: map<string, string>)

  const CORS_HEADERS: map<string, string> := map[
    "Access-Control-Allow-Origin" := "*",
    "Access-Control-Allow-Methods" := "GET, OPTIONS",
    "Access-Control-Allow-Headers" := "Content-Type, Accept",
    "Access-Control-Max-Age" := "86400"
  ]

  /** The exported handler, with the intended endpoint check. A bad endpoint is answered
      400 before anything else, OPTIONS included, and without CORS headers; a valid
      OPTIONS gets 204. Otherwise the target is requested with GET: its status is
      mirrored (200 when it has none), a failed request gives 502 and a timeout 504. */
  method Handle(verb: string, q: Query, upstream: Upstream) returns (response: Response, sent: Option<UpstreamRequest>)
    requires DistinctKeys(q)
    ensures CheckEndpoint(q) == BadEndpoint ==> response == Response(400, map[]) && sent == None
    ensures CheckEndpoint(q).Target? && verb == "OPTIONS" ==> response == Response(204, CORS_HEADERS) && sent == None
    ensures CheckEndpoint(q).Target? && verb != "OPTIONS" ==>
      && sent.Some? && sent.value.verb == "GET" && sent.value.target == CheckEndpoint(q).url
      && (forall name :: Get(sent.value.params, name) == CopiedValue(q, name))
      && (upstream.RequestFailed? ==> response == Response(502, CORS_HEADERS))
      && (upstream.TimedOut? ==> response == Response(504, CORS_HEADERS))
      && (upstream.Answered? ==>
            response.status == (if upstream.statusCode != 0 then upstream.statusCode else 200)
            && response.headers == CORS_HEADERS + map[
                 "Content-Type" := (if upstream.contentType.Some? && upstream.contentType.value != ""
                                    then upstream.contentType.value else "application/json"),
                 "Cache-Control" := "public, max-age=3"])
  {
    CheckEndpointIff(q);
    var check := CheckEndpoint(q);
    if !check.Target? {
      return Response(400, map[]), None;
    }
    var params := CopyQuery(q);
    var headers := CORS_HEADERS;
    if verb == "OPTIONS" {
      return Response(204, headers), None;
    }
    sent := Some(UpstreamRequest("GET", check.url, params));
    match upstream {
      case Answered(statusCode, contentType) =>
        var ct := if contentType.Some? && contentType.value != "" then contentType.value else "application/json";
        headers := headers + map["Content-Type" := ct, "Cache-Control" := "public, max-age=3"];
        response := Response(if statusCode != 0 then statusCode else 200, headers);
      case RequestFailed =>
        response := Response(502, headers);
      case TimedOut =>
        response := Response(504, headers);
    }
  }
}
