/** The Cloudflare worker relay (worker/worker.js): CORS origin selection, the routing of
    `handleRequest`, the copy of the query onto the upstream URL, and the headers of the
    relayed response. The upstream `fetch` is an input. */
module Worker {
  import opened Wrappers
  import opened SearchParams

  const ALLOWED_ORIGINS: seq<string> := ["https://sayag11.github.io", "http://localhost:3000"]

  /** The upstream URL of each served pathname; none of them has a query. */
  const ALLOWED_TARGETS: map<string, string> := map[
    "/alerts" := "https://www.oref.org.il/warningMessages/alert/Alerts.json",
    "/history" := "https://www.oref.org.il/warningMessages/alert/History/AlertsHistory.json",
    "/history-range" := "https://alerts-history.oref.org.il/Shared/Ajax/GetAlarmsHistory.aspx",
    "/cities" := "https://alerts-history.oref.org.il/Shared/Ajax/GetDistricts.aspx"
  ]

  type Headers = map<string, string>

  /** `request.headers.get('Origin') || ''`. */
  function OriginText(origin: Option<string>): string {
    if origin.Some? then origin.value else ""
  }

  /** The origin `getCorsHeaders` allows: the request's own when listed, else the first
      listed one. */
  function AllowedOrigin(origin: Option<string>): string {
    var o := OriginText(origin);
    if o in ALLOWED_ORIGINS then o else ALLOWED_ORIGINS[0]
  }

  function CorsHeaders(origin: Option<string>): Headers {
    map[
      "Access-Control-Allow-Origin" := AllowedOrigin(origin),
      "Access-Control-Allow-Methods" := "GET, OPTIONS",
      "Access-Control-Allow-Headers" := "Content-Type, Accept, X-Requested-With",
      "Access-Control-Max-Age" := "86400"
    ]
  }

  /** The allowed origin echoes the request's origin exactly when that origin is listed;
      it is always a listed origin, so no other site is ever allowed. */
  lemma AllowedOriginIff(origin: Option<string>)
    ensures AllowedOrigin(origin) == OriginText(origin) <==> OriginText(origin) in ALLOWED_ORIGINS
    ensures AllowedOrigin(origin) in ALLOWED_ORIGINS
    ensures origin.None? ==> AllowedOrigin(origin) == "https://sayag11.github.io"
  {
  }

  datatype WorkerRequest = WorkerRequest(verb: string, origin: Option<string>, pathname: string, query: Params)

  /** What the upstream `fetch` does: answers with a status and maybe a content type, or
      rejects. */
  datatype Upstream = Answered(status: int, contentType: Option<string>) | FetchRejected

  /** The response's status and the headers the handler sets itself (the bodies are passed
      through or fixed texts; the content type the runtime adds to a text body is not
      listed). */
  datatype Response = Response(status: int, headers: Headers)

  /** `handleRequest` ends with a response, or throws: when `fetch` rejects, or when the
      relayed answer cannot be built. */
  datatype Outcome = Responded(response: Response) | Threw

  /** The upstream request: the target URL and the query set on it. */
  datatype UpstreamRequest = UpstreamRequest(target: string, params: Params)

  /** The headers of a relayed response: CORS, the upstream content type or JSON, and a
      three-second public cache. */
  function RelayHeaders(origin: Option<string>, contentType: Option<string>): Headers {
    CorsHeaders(origin) + map[
      "Content-Type" := (if contentType.Some? && contentType.value != "" then contentType.value else "application/json"),
      "Cache-Control" := "public, max-age=3"
    ]
  }

  /** Whether the Fetch standard's `Response` constructor accepts `status` together with a
      body, even an empty one: it throws a `RangeError` outside 200 to 599, and a
      `TypeError` for the null-body statuses 204, 205 and 304. */
  predicate RelayableStatus(status: int) {
    200 <= status <= 599 && status != 204 && status != 205 && status != 304
  }

  /** `handleRequest`. OPTIONS gets 204 with the CORS headers whatever the path; any other
      method but GET gets 405 without CORS headers; a GET for a pathname not listed gets
      404. A listed GET is fetched with every incoming query name set to its last value,
      and the answer keeps the upstream status; an upstream answer with no content (204,
      205, 304) makes the relay throw, since its body is always an `ArrayBuffer`. */
  method HandleRequest(req: WorkerRequest, upstream: Upstream) returns (outcome: Outcome, sent: Option<UpstreamRequest>)
    ensures req.verb == "OPTIONS" ==> outcome == Responded(Response(204, CorsHeaders(req.origin))) && sent == None
    ensures req.verb != "OPTIONS" && req.verb != "GET" ==> outcome == Responded(Response(405, map[])) && sent == None
    ensures req.verb == "GET" && req.pathname !in ALLOWED_TARGETS ==>
      outcome == Responded(Response(404, map[])) && sent == None
    ensures req.verb == "GET" && req.pathname in ALLOWED_TARGETS ==>
      && sent.Some?
      && sent.value.target == ALLOWED_TARGETS[req.pathname]
      && (forall name :: Get(sent.value.params, name) == LastValue(req.query, name))
      && (forall name :: HasName(sent.value.params, name) <==> HasName(req.query, name))
      && DistinctNames(sent.value.params)
      && (upstream.FetchRejected? ==> outcome == Threw)
      && (upstream.Answered? && upstream.status in {204, 205, 304} ==> outcome == Threw)
      && (upstream.Answered? && !(200 <= upstream.status <= 599) ==> outcome == Threw)
      && (upstream.Answered? && RelayableStatus(upstream.status) ==>
            outcome == Responded(Response(upstream.status, RelayHeaders(req.origin, upstream.contentType))))
  {
    if req.verb == "OPTIONS" {
      return Responded(Response(204, CorsHeaders(req.origin))), None;
    }
    if req.verb != "GET" {
      return Responded(Response(405, map[])), None;
    }
    if req.pathname !in ALLOWED_TARGETS {
      return Responded(Response(404, map[])), None;
    }
    var target := ALLOWED_TARGETS[req.pathname];
    var params := CopyParams([], req.query);
    forall name ensures Get(params, name) == LastValue(req.query, name) {
      LastValuePresent(req.query, name);
    }
    sent := Some(UpstreamRequest(target, params));
    match upstream {
      case FetchRejected =>
        outcome := Threw;
      case Answered(status, contentType) =>
        if RelayableStatus(status) {
          outcome := Responded(Response(status, RelayHeaders(req.origin, contentType)));
        } else {
          outcome := Threw;
        }
    }
  }

  /** Every relayed answer carries the CORS headers, the cache header and a content type,
      and an upstream content type is passed on unchanged. */
  lemma RelayHeadersComplete(origin: Option<string>, contentType: Option<string>)
    ensures var h := RelayHeaders(origin, contentType);
      && h["Access-Control-Allow-Origin"] == AllowedOrigin(origin)
      && h["Cache-Control"] == "public, max-age=3"
      && (contentType.Some? && contentType.value != "" ==> h["Content-Type"] == contentType.value)
      && (contentType.None? ==> h["Content-Type"] == "application/json")
  {
  }
}
