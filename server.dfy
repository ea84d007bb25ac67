/** The request gates of the Express relay (server.js): the size and method middlewares,
    the date check on `/api/history-range`, the query sanitiser of the proxied path, and
    which of the `/api` routes answers. */
module Server {
  import opened Wrappers
  import opened Text
  import opened Sequences
  import StatusEngine

  // ---------------------------------------------------------------- size and method gates

  /** Requests declaring a larger body are refused with 413. */
  const MAX_CONTENT_LENGTH := 1024

  /** The number of leading decimal digits of `s`. */
  function LeadingDigitCount(s: string): (n: nat)
    ensures n <= |s| && AllDigits(s[..n]) && (n < |s| ==> !IsDigit(s[n]))
    decreases |s|
  {
    if s == [] || !IsDigit(s[0]) then 0
    else
      var n := 1 + LeadingDigitCount(s[1..]);
      assert s[..n] == [s[0]] + s[1..][..n - 1];
      n
  }

  /** `parseInt(s, 10)`: leading white space, an optional sign, then the longest run of
      digits; `None` is `NaN`, when no digit follows. */
  function ParseInt(s: string): Option<int> {
    var t := TrimStart(s);
    var negative := t != [] && t[0] == '-';
    var body := if t != [] && (t[0] == '-' || t[0] == '+') then t[1..] else t;
    var n := LeadingDigitCount(body);
    var v: int := DecimalValue(body[..n]);
    if n == 0 then None else Some(if negative then -v else v)
  }

  /** A string of digits parses to the number it writes; in particular printing a number
      and parsing it back gives the number. */
  lemma ParseIntOfDigits(s: string)
    requires AllDigits(s) && s != []
    ensures ParseInt(s) == Some(DecimalValue(s))
  {
    assert IsDigit(s[0]) && !IsJsSpace(s[0]) && s[0] != '-' && s[0] != '+';
    assert TrimStart(s) == s;
    var n := LeadingDigitCount(s);
    assert n == |s|;
    assert s[..n] == s;
  }

  lemma ParseIntOfNatToString(n: nat)
    ensures ParseInt(NatToString(n)) == Some(n)
  {
    ParseIntOfDigits(NatToString(n));
  }

  /** The header text `parseInt` sees: `req.headers['content-length'] || '0'`. */
  function ContentLengthText(header: Option<string>): string {
    if header.None? || header.value == "" then "0" else header.value
  }

  /** The size middleware refuses the request. `NaN > 1024` is false, so a header without
      digits passes. */
  predicate TooLarge(header: Option<string>) {
    var n := ParseInt(ContentLengthText(header));
    n.Some? && n.value > MAX_CONTENT_LENGTH
  }

  /** A missing header counts as 0, a header without leading digits as `NaN`: both pass.
      A plain number is refused exactly when it exceeds 1024. */
  lemma SizeGateCases(n: nat, junk: string)
    requires junk != [] && !IsDigit(junk[0]) && !IsJsSpace(junk[0]) && junk[0] != '-' && junk[0] != '+'
    ensures !TooLarge(None) && !TooLarge(Some(""))
    ensures !TooLarge(Some(junk))
    ensures TooLarge(Some(NatToString(n))) <==> n > MAX_CONTENT_LENGTH
  {
    ParseIntOfDigits("0");
    ParseIntOfNatToString(n);
    assert TrimStart(junk) == junk;
  }

  /** The method middleware lets through only GET, HEAD and OPTIONS. */
  predicate MethodAllowed(verb: string) {
    verb == "GET" || verb == "HEAD" || verb == "OPTIONS"
  }

  // ---------------------------------------------------------------- the date check

  /** `DATE_PATTERN`, `^\d{2}\.\d{2}\.\d{4}$`: exactly ten characters, dots at 2 and 5 and
      ASCII digits elsewhere. There is no calendar check. */
  predicate MatchesDatePattern(s: string) {
    |s| == 10 && forall i :: 0 <= i < 10 ==> if i == 2 || i == 5 then s[i] == '.' else IsDigit(s[i])
  }

  /** A value of Express's `req.query`: missing, a string, the list a repeated key gives,
      or the object a bracketed key gives. */
  datatype QueryValue = Missing | Text(s: string) | List(items: seq<string>) | Nested

  /** JavaScript truthiness of the value. */
  predicate Truthy(v: QueryValue) {
    match v
    case Missing => false
    case Text(s) => s != ""
    case List(_) => true
    case Nested => true
  }

  /** The string `RegExp.prototype.test` converts the value to. */
  function ToJsString(v: QueryValue): string {
    match v
    case Missing => "undefined"
    case Text(s) => s
    case List(items) => JoinComma(items)
    case Nested => "[object Object]"
  }

  /** A present value that fails the pattern. */
  predicate BadDate(v: QueryValue) {
    Truthy(v) && !MatchesDatePattern(ToJsString(v))
  }

  datatype RangeCheck = Accept | InvalidFromDate | InvalidToDate

  /** `validateHistoryRangeParams`: fromDate is checked first. */
  function ValidateHistoryRangeParams(fromDate: QueryValue, toDate: QueryValue): RangeCheck {
    if BadDate(fromDate) then InvalidFromDate
    else if BadDate(toDate) then InvalidToDate
    else Accept
  }

  /** Absent and empty parameters are accepted; a present one must match the pattern,
      and when both fail the fromDate error is reported. */
  lemma RangeParamsAccepted(fromDate: QueryValue, toDate: QueryValue)
    ensures ValidateHistoryRangeParams(fromDate, toDate) == Accept <==>
      (Truthy(fromDate) ==> MatchesDatePattern(ToJsString(fromDate)))
      && (Truthy(toDate) ==> MatchesDatePattern(ToJsString(toDate)))
    ensures BadDate(fromDate) ==> ValidateHistoryRangeParams(fromDate, toDate) == InvalidFromDate
    ensures ValidateHistoryRangeParams(Missing, Missing) == Accept
    ensures ValidateHistoryRangeParams(Text(""), Text("")) == Accept
  {
  }

  /** The pattern checks shape only: 99.99.0000 passes, and a repeated key with a single
      well-formed value would pass as its one-item list. */
  lemma PatternIsShapeOnly()
    ensures MatchesDatePattern("99.99.0000")
    ensures !MatchesDatePattern("1.1.2024")
    ensures ValidateHistoryRangeParams(List(["01.01.2024"]), Missing) == Accept
  {
    var s := "1.1.2024";
    assert s[1] == '.';
  }

  /** Every date the client formats with a four-digit year passes the server's check. */
  lemma FormattedDatesPass(day: int, month0: int, year: int)
    requires 1 <= day <= 31 && 0 <= month0 <= 11 && 1000 <= year <= 9999
    ensures MatchesDatePattern(StatusEngine.FormatDateParam(day, month0, year))
  {
    var r := StatusEngine.FormatDateParam(day, month0, year);
    StatusEngine.FormatDateParamFields(day, month0, year);
    forall i | 0 <= i < 10 ensures if i == 2 || i == 5 then r[i] == '.' else IsDigit(r[i]) {
      if i < 2 {
        assert r[i] == r[0..2][i];
      } else if 2 < i < 5 {
        assert r[i] == r[3..5][i - 3];
      } else if i > 5 {
        assert r[i] == r[6..10][i - 6];
      }
    }
  }

  // ---------------------------------------------------------------- the query sanitiser

  const ALLOWED_PARAMS: set<string> := {"lang", "fromDate", "toDate", "mode"}

  /** The index of the first `?`, or the length when there is none. */
  function QueryStart(path: string): (q: nat)
    ensures q <= |path| && (q < |path| ==> path[q] == '?')
  {
    IndexOf(path, '?')
  }

  /** No `?` comes before the first one. */
  lemma QueryStartFirst(path: string)
    ensures forall i :: 0 <= i < QueryStart(path) ==> path[i] != '?'
  {
    IndexOfFirst(path, '?');
  }

  /** The path without its query. */
  function PathPart(path: string): string {
    path[..QueryStart(path)]
  }

  /** The query starts at the first `?`, whatever follows it. */
  lemma QueryStartIs(path: string, q: nat)
    requires q <= |path| && (q < |path| ==> path[q] == '?')
    requires forall i :: 0 <= i < q ==> path[i] != '?'
    ensures QueryStart(path) == q
  {
    var r := QueryStart(path);
    QueryStartFirst(path);
    assert !(r < q) by {
      assert r < |path| ==> path[r] == '?';
    }
  }

  /** `[?&]key=` matches at `i` (the key is taken literally). */
  predicate ParamAt(path: string, i: nat, key: string) {
    i + |key| + 2 <= |path| && (path[i] == '?' || path[i] == '&')
    && path[i + 1..i + 1 + |key|] == key && path[i + 1 + |key|] == '='
  }

  /** Where the greedy `[^&]*` starting at `j` stops: the next `&`, or the end. */
  function ValueEnd(path: string, j: nat): (e: nat)
    requires j <= |path|
    ensures j <= e <= |path| && (e < |path| ==> path[e] == '&')
    decreases |path| - j
  {
    if j == |path| || path[j] == '&' then j else ValueEnd(path, j + 1)
  }

  /** The leftmost match of `[?&]key=` at or after `from`. */
  function FindParam(path: string, key: string, from: nat): (r: Option<nat>)
    requires from <= |path|
    ensures r.Some? ==> from <= r.value && ParamAt(path, r.value, key)
    decreases |path| - from
  {
    if from == |path| then None
    else if ParamAt(path, from, key) then Some(from)
    else FindParam(path, key, from + 1)
  }

  /** `path.replace(new RegExp('[?&]' + key + '=[^&]*'), '')` as the source writes it: the
      first match is cut out together with its leading `?` or `&`. */
  function RemoveFirstParam(path: string, key: string): string {
    match FindParam(path, key, 0)
    case None => path
    case Some(i) => path[..i] + path[ValueEnd(path, i + |key| + 2)..]
  }

  /** `sanitizeProxyReq` as written: each disallowed key of the request, in order. */
  function SanitizeAsWritten(path: string, keys: seq<string>): string {
    if keys == [] then path
    else SanitizeAsWritten(if keys[0] in ALLOWED_PARAMS then path else RemoveFirstParam(path, keys[0]), keys[1..])
  }

  /** Even as written, the sanitiser only deletes characters, and it returns the path
      untouched when every key of the request is allowed. */
  lemma {:induction false} SanitizeAsWrittenDeletesOnly(path: string, keys: seq<string>)
    ensures IsSubsequence(SanitizeAsWritten(path, keys), path)
    ensures (forall k :: k in keys ==> k in ALLOWED_PARAMS) ==> SanitizeAsWritten(path, keys) == path
    decreases |keys|
  {
    if keys == [] {
      SubsequenceReflexive(path);
    } else {
      var next := if keys[0] in ALLOWED_PARAMS then path else RemoveFirstParam(path, keys[0]);
      SubsequenceReflexive(path);
      RemoveFirstParamDeletes(path, keys[0]);
      SanitizeAsWrittenDeletesOnly(next, keys[1..]);
      SubsequenceTransitive(SanitizeAsWritten(next, keys[1..]), next, path);
      if forall k :: k in keys ==> k in ALLOWED_PARAMS {
        assert keys[0] in keys;
        forall k | k in keys[1..] ensures k in ALLOWED_PARAMS {
          assert k in keys;
        }
      }
    }
  }

  /** One `replace` cuts out a block of characters, or nothing. */
  lemma RemoveFirstParamDeletes(path: string, key: string)
    ensures IsSubsequence(RemoveFirstParam(path, key), path)
  {
    var r := RemoveFirstParam(path, key);
    var found := FindParam(path, key, 0);
    if found.None? {
      assert r == path;
      SubsequenceReflexive(path);
    } else {
      var i := found.value;
      var e := ValueEnd(path, i + |key| + 2);
      assert r == path[..i] + path[e..];
      DeleteBlockIsSubsequence(path, i, e);
    }
  }

  /** An unknown first parameter takes the `?` with it: the allowed parameters after it
      become part of the path, and the upstream path changes. */
  lemma SanitizeAsWrittenLosesQuery()
    ensures '?' !in SanitizeAsWritten("/h?foo=1&lang=he", ["foo", "lang"])
    ensures PathPart(SanitizeAsWritten("/h?foo=1&lang=he", ["foo", "lang"])) != "/h"
  {
    SanitizeAsWrittenExample();
    LostQueryExample("/h&lang=he");
  }

  /** The example's result has no `?`, so all of it is path. */
  lemma LostQueryExample(r: string)
    requires r == "/h&lang=he"
    ensures '?' !in r && PathPart(r) != "/h"
  {
    assert forall i :: 0 <= i < |r| ==> r[i] != '?';
    NoQuery(r);
    assert |PathPart(r)| == 10;
  }

  lemma SanitizeAsWrittenExample()
    ensures SanitizeAsWritten("/h?foo=1&lang=he", ["foo", "lang"]) == "/h&lang=he"
  {
    var p := "/h?foo=1&lang=he";
    var r := "/h&lang=he";
    RemoveFirstParamExample();
    assert SanitizeAsWritten(p, ["foo", "lang"]) == SanitizeAsWritten(r, ["lang"]);
    assert SanitizeAsWritten(r, ["lang"]) == SanitizeAsWritten(r, []);
  }

  /** The first match of `[?&]foo=` in the example is at the `?`. */
  lemma RemoveFirstParamExample()
    ensures RemoveFirstParam("/h?foo=1&lang=he", "foo") == "/h&lang=he"
  {
    var p := "/h?foo=1&lang=he";
    FindParamExample();
    ValueEndExample();
    assert p[..2] + p[8..] == "/h&lang=he";
  }

  /** In the example, `[?&]foo=` matches at the `?`, and nowhere before it. */
  lemma FindParamExample()
    ensures FindParam("/h?foo=1&lang=he", "foo", 0) == Some(2)
    ensures FindParam("/h?foo=1&lang=he", "foo", 2) == Some(2)
  {
    var p := "/h?foo=1&lang=he";
    assert p[0] == '/' && p[1] == 'h';
    assert !ParamAt(p, 0, "foo") && !ParamAt(p, 1, "foo");
    assert p[3..6][0] == 'f' && p[3..6][1] == 'o' && p[3..6][2] == 'o';
    assert p[3..6] == "foo";
    assert p[2] == '?' && p[6] == '=';
    assert ParamAt(p, 2, "foo");
    assert FindParam(p, "foo", 2) == Some(2);
    assert FindParam(p, "foo", 1) == Some(2);
  }

  /** The value `1` of the example ends at the `&` that follows it. */
  lemma ValueEndExample()
    ensures ValueEnd("/h?foo=1&lang=he", 7) == 8
  {
    var p := "/h?foo=1&lang=he";
    assert p[7] == '1' && p[8] == '&';
    assert ValueEnd(p, 8) == 8;
  }

  /** A path without `?` is all path. */
  lemma NoQuery(path: string)
    requires '?' !in path
    ensures PathPart(path) == path
  {
    QueryStartIs(path, |path|);
  }

  /** The evident intent: cut the parameter out of the query only. When it is the first
      one and others follow, the `?` stays and the following `&` goes instead. */
  function RemoveQueryParam(path: string, key: string): string {
    match FindParam(path, key, QueryStart(path))
    case None => path
    case Some(i) => Splice(path, i, MatchEnd(path, key, i))
  }

  /** Cut the match at `i` whose value ends at `e`: a match at a `?` keeps the `?` and
      takes the following `&` instead, unless nothing follows. */
  function Splice(path: string, i: nat, e: nat): string
    requires i < e <= |path|
  {
    if path[i] == '?' && e < |path| then path[..i + 1] + path[e + 1..]
    else path[..i] + path[e..]
  }

  /** Removing a query parameter only deletes characters, and never touches the path. */
  lemma RemoveQueryParamKeepsPath(path: string, key: string)
    ensures IsSubsequence(RemoveQueryParam(path, key), path)
    ensures PathPart(RemoveQueryParam(path, key)) == PathPart(path)
  {
    var found := FindParam(path, key, QueryStart(path));
    if found.None? {
      SubsequenceReflexive(path);
    } else {
      var i := found.value;
      SpliceKeepsPath(path, i, MatchEnd(path, key, i));
    }
  }

  /** Cutting a match out of the query only deletes characters and keeps the path part. */
  lemma SpliceKeepsPath(path: string, i: nat, e: nat)
    requires QueryStart(path) <= i < e <= |path| && (path[i] == '?' || path[i] == '&')
    ensures IsSubsequence(Splice(path, i, e), path)
    ensures PathPart(Splice(path, i, e)) == PathPart(path)
  {
    var k, m := if path[i] == '?' && e < |path| then i + 1 else i, if path[i] == '?' && e < |path| then e + 1 else e;
    SpliceShape(path, i, e, k, m);
    CutWithMark(path, k, m);
    KeepsEq(Splice(path, i, e), path[..k] + path[m..], path);
  }

  /** Equal strings keep the same things of `path`. */
  lemma KeepsEq(a: string, b: string, path: string)
    requires a == b && IsSubsequence(b, path) && PathPart(b) == PathPart(path)
    ensures IsSubsequence(a, path) && PathPart(a) == PathPart(path)
  {
  }

  /** `Splice` is one block deletion. */
  lemma SpliceShape(path: string, i: nat, e: nat, k: nat, m: nat)
    requires i < e <= |path|
    requires if path[i] == '?' && e < |path| then k == i + 1 && m == e + 1 else k == i && m == e
    ensures k <= m <= |path| && Splice(path, i, e) == path[..k] + path[m..]
  {
  }

  /** Cutting `path[i..e]` out of the query only deletes characters and keeps the path part,
      provided a cut that starts at the first `?` runs to the end. */
  lemma CutWithMark(path: string, i: nat, e: nat)
    requires QueryStart(path) <= i <= e <= |path|
    requires i == QueryStart(path) ==> e == |path|
    ensures IsSubsequence(path[..i] + path[e..], path)
    ensures PathPart(path[..i] + path[e..]) == PathPart(path)
  {
    var q := QueryStart(path);
    var r := path[..i] + path[e..];
    DeleteBlockIsSubsequence(path, i, e);
    if i > q {
      SharedPrefixKeepsPath(path, r, i);
    } else {
      assert r == path[..q];
      QueryStartFirst(path);
      QueryStartIs(r, q);
    }
  }

  /** Two strings that agree up to and including the first `?` of one of them have the
      same path part. */
  lemma SharedPrefixKeepsPath(path: string, r: string, k: nat)
    requires QueryStart(path) < k <= |path| && k <= |r|
    requires forall j :: 0 <= j < k ==> r[j] == path[j]
    ensures PathPart(r) == PathPart(path)
  {
    var q := QueryStart(path);
    QueryStartFirst(path);
    QueryStartIs(r, q);
    assert r[..q] == path[..q];
  }

  /** On the example above the intended removal keeps the query. */
  lemma RemoveQueryParamExample()
    ensures RemoveQueryParam("/h?foo=1&lang=he", "foo") == "/h?lang=he"
  {
    var p := "/h?foo=1&lang=he";
    assert p[0] == '/' && p[1] == 'h' && p[2] == '?';
    QueryStartIs(p, 2);
    FindParamExample();
    ValueEndExample();
    assert p[..3] + p[9..] == "/h?lang=he";
  }

  // ---------------------------------------------------------------- the query's parameters

  /** The text after the first `?`, or nothing when there is none. */
  function Query(path: string): string {
    var q := QueryStart(path);
    if q < |path| then path[q + 1..] else ""
  }

  /** An `&`-free piece of a query as a parameter: none when it is empty. */
  function Piece(a: string): seq<string> {
    if a == "" then [] else [a]
  }

  /** The parameters `URLSearchParams` reads from a query: its non-empty `&`-separated
      parts, in order. */
  function Parts(t: string): seq<string>
    decreases |t|
  {
    var j := IndexOf(t, '&');
    Piece(t[..j]) + (if j < |t| then Parts(t[j + 1..]) else [])
  }

  /** The name of a parameter: the text before its first `=`, or all of it. */
  function Name(part: string): string {
    part[..IndexOf(part, '=')]
  }

  function Names(parts: seq<string>): seq<string>
    decreases |parts|
  {
    if parts == [] then [] else [Name(parts[0])] + Names(parts[1..])
  }

  /** The keys `url.searchParams.entries()` yields, one per parameter, repeats included. */
  function QueryNames(path: string): seq<string> {
    Names(Parts(Query(path)))
  }

  /** `part` is `key=value`: what `[?&]key=[^&]*` matches after its separator. */
  predicate StartsKey(part: string, key: string) {
    |key| < |part| && part[..|key|] == key && part[|key|] == '='
  }

  /** A parameter with a value whose name is not allowed: what the sanitiser must drop. */
  predicate Disallowed(part: string) {
    '=' in part && Name(part) !in ALLOWED_PARAMS
  }

  /** The parameters without the first `key=value` one. */
  function RemoveFirstValued(parts: seq<string>, key: string): seq<string>
    decreases |parts|
  {
    if parts == [] then []
    else if StartsKey(parts[0], key) then parts[1..]
    else [parts[0]] + RemoveFirstValued(parts[1..], key)
  }

  /** How many parameters are `key=value`. */
  function CountValued(parts: seq<string>, key: string): nat
    decreases |parts|
  {
    if parts == [] then 0
    else (if StartsKey(parts[0], key) then 1 else 0) + CountValued(parts[1..], key)
  }

  /** A piece followed by `&…` (or by nothing) contributes itself, then the rest. */
  lemma PartsAfterPiece(a: string, x: string)
    requires '&' !in a && (x == [] || x[0] == '&')
    ensures Parts(a + x) == Piece(a) + Parts(x)
  {
    if x == [] {
      assert a + x == a;
      PartsNoAmp(a);
      PartsNoAmp(x);
    } else {
      var y := x[1..];
      AmpHead(a, x, y);
      PartsAfterAmp(a, x, y);
    }
  }

  /** `x` is an `&` followed by `y`. */
  lemma AmpHead(a: string, x: string, y: string)
    requires x != [] && x[0] == '&' && y == x[1..]
    ensures x == ['&'] + y && a + x == a + ['&'] + y
  {
  }

  /** A piece, then `&` and the rest. */
  lemma PartsAfterAmp(a: string, x: string, y: string)
    requires '&' !in a && x == ['&'] + y && a + x == a + ['&'] + y
    ensures Parts(a + x) == Piece(a) + Parts(x)
  {
    PartsJoin(a, y);
    PartsAmp(y);
  }

  /** Parameters never hold `&`, and are never empty. */
  lemma {:induction false} PartsClean(t: string)
    ensures forall x :: x in Parts(t) ==> '&' !in x && x != ""
    decreases |t|
  {
    var j := IndexOf(t, '&');
    IndexOfFirst(t, '&');
    if j < |t| {
      PartsClean(t[j + 1..]);
    }
  }

  /** A name holds neither `&` nor `=` when its parameter holds no `&`. */
  lemma {:induction false} NamesClean(parts: seq<string>)
    requires forall x :: x in parts ==> '&' !in x
    ensures forall k :: k in Names(parts) ==> '&' !in k && '=' !in k
    decreases |parts|
  {
    if parts != [] {
      NamesClean(parts[1..]);
      var x := parts[0];
      var n := Name(x);
      IndexOfFirst(x, '=');
      assert x in parts;
      forall i | 0 <= i < |n| ensures n[i] != '&' && n[i] != '=' {
        assert n[i] == x[i];
      }
    }
  }

  /** A `key=value` parameter is named `key`, for a key without `=`. */
  lemma NameOfValued(x: string, key: string)
    requires StartsKey(x, key) && '=' !in key
    ensures Name(x) == key
  {
    forall k | 0 <= k < |key| ensures x[k] != '=' {
      assert x[k] == x[..|key|][k];
    }
    IndexOfIs(x, '=', |key|);
  }

  /** A parameter with a value is `name=value` for its name. */
  lemma ValuedHasName(x: string)
    requires '=' in x
    ensures StartsKey(x, Name(x)) && '=' !in Name(x)
  {
    var j := IndexOf(x, '=');
    IndexOfFirst(x, '=');
    var k :| 0 <= k < |x| && x[k] == '=';
    assert j <= k;
    assert x[..j][..j] == x[..j];
  }

  /** `e` is where the parameter after the separator `p` ends: the next `&`, or the end. */
  predicate NextAmp(s: string, p: nat, e: nat) {
    p < e <= |s| && (e < |s| ==> s[e] == '&') && forall k :: p < k < e ==> s[k] != '&'
  }

  /** Every separator has a next `&` (or the end). */
  lemma NextAmpExists(s: string, p: nat) returns (e: nat)
    requires p < |s|
    ensures NextAmp(s, p, e)
  {
    var t := s[p + 1..];
    var j := IndexOf(t, '&');
    IndexOfFirst(t, '&');
    e := p + 1 + j;
    forall k | p < k < e ensures s[k] != '&' {
      assert s[k] == t[k - p - 1];
    }
  }

  /** The next `&` is the first `&` of what follows the separator. */
  lemma NextAmpIndex(s: string, p: nat, e: nat)
    requires NextAmp(s, p, e)
    ensures IndexOf(s[p + 1..], '&') == e - p - 1
  {
    var t := s[p + 1..];
    forall k | 0 <= k < e - p - 1 ensures t[k] != '&' {
      assert t[k] == s[p + 1 + k];
    }
    IndexOfIs(t, '&', e - p - 1);
  }

  /** The query after the separator `p` once the match of `[?&]key=` at `i`, whose value
      ends at `v`, is cut out. */
  function Cut(s: string, p: nat, i: nat, v: nat): string
    requires p <= i <= v <= |s|
  {
    if i == p then s[v..] else s[p + 1..i] + s[v..]
  }

  /** Where the value of a match of `[?&]key=` at `i` ends. */
  function MatchEnd(s: string, key: string, i: nat): nat
    requires i + |key| + 2 <= |s|
  {
    ValueEnd(s, i + |key| + 2)
  }

  /** What the leftmost `[?&]key=` from the separator `p` on does to the parameters. */
  predicate CutsFirstValued(s: string, key: string, p: nat)
    requires p < |s|
  {
    match FindParam(s, key, p)
    case None => RemoveFirstValued(Parts(s[p + 1..]), key) == Parts(s[p + 1..])
    case Some(i) => Parts(Cut(s, p, i, MatchEnd(s, key, i))) == RemoveFirstValued(Parts(s[p + 1..]), key)
  }

  /** From a separator at `p` (the `?` or an `&`), the leftmost `[?&]key=` sits in front of
      the first `key=value` parameter after `p`, and cutting the match out removes exactly
      that parameter. */
  lemma {:induction false} FindParamParts(s: string, key: string, p: nat)
    requires p < |s| && (s[p] == '?' || s[p] == '&') && '?' !in s[p + 1..] && '&' !in key
    ensures CutsFirstValued(s, key, p)
    decreases |s| - p
  {
    var e := NextAmpExists(s, p);
    if ParamAt(s, p, key) {
      FindParamPartsHere(s, key, p, e);
    } else if e < |s| {
      NotInSuffix(s, '?', p + 1, e + 1);
      FindParamParts(s, key, e);
      FindParamPartsNext(s, key, p, e);
    } else {
      FindParamPartsLast(s, key, p, e);
    }
  }

  /** No match in the last parameter: nothing is cut. */
  lemma FindParamPartsLast(s: string, key: string, p: nat, e: nat)
    requires NextAmp(s, p, e) && e == |s| && (s[p] == '?' || s[p] == '&') && !ParamAt(s, p, key) && '?' !in s[p + 1..]
    ensures CutsFirstValued(s, key, p)
  {
    NotParamSkip(s, key, p, e);
    RemoveFirstValuedSkip(s[p + 1..e], [], key);
  }

  /** No match at `p`: the outcome from the next `&` on, behind the first parameter. */
  lemma FindParamPartsNext(s: string, key: string, p: nat, e: nat)
    requires NextAmp(s, p, e) && e < |s| && (s[p] == '?' || s[p] == '&') && !ParamAt(s, p, key) && '?' !in s[p + 1..]
    requires CutsFirstValued(s, key, e)
    ensures CutsFirstValued(s, key, p)
  {
    NotParamSkip(s, key, p, e);
    RemoveFirstValuedSkip(s[p + 1..e], Parts(s[e + 1..]), key);
    match FindParam(s, key, e)
    case None =>
    case Some(i) =>
      CutSkip(s, p, e, i, MatchEnd(s, key, i));
  }

  /** Removing a disallowed parameter from the query removes exactly its first `key=value`
      occurrence from the parameters `URLSearchParams` reads, and brings in no second `?`. */
  lemma RemoveQueryParamParts(path: string, key: string)
    requires '&' !in key && '?' !in Query(path)
    ensures Parts(Query(RemoveQueryParam(path, key))) == RemoveFirstValued(Parts(Query(path)), key)
    ensures '?' !in Query(RemoveQueryParam(path, key))
  {
    var q := QueryStart(path);
    if q < |path| {
      FindParamParts(path, key, q);
      match FindParam(path, key, q)
      case None =>
      case Some(i) =>
        RemoveParamAt(path, key, q, i, MatchEnd(path, key, i));
    }
  }

  /** The query left by cutting the match at `i` whose value ends at `e`. */
  lemma RemoveParamAt(path: string, key: string, q: nat, i: nat, e: nat)
    requires q == QueryStart(path) && q < |path| && '?' !in path[q + 1..]
    requires FindParam(path, key, q) == Some(i) && e == MatchEnd(path, key, i)
    ensures Parts(Query(RemoveQueryParam(path, key))) == Parts(Cut(path, q, i, e))
    ensures '?' !in Query(RemoveQueryParam(path, key))
  {
    RemoveQueryParamIs(path, key, q, i, e);
    if i == q && e < |path| {
      CutFirstOfMore(path, q, e);
    } else if i == q {
      CutOnly(path, q);
    } else {
      assert path[i] == path[q + 1..][i - q - 1];
      CutLater(path, q, i, e);
    }
    PartsEq(Query(RemoveQueryParam(path, key)), Query(Splice(path, i, e)));
  }

  /** `RemoveQueryParam` splices out the match it finds. */
  lemma RemoveQueryParamIs(path: string, key: string, q: nat, i: nat, e: nat)
    requires q == QueryStart(path) && FindParam(path, key, q) == Some(i) && e == MatchEnd(path, key, i)
    ensures i < e <= |path| && Query(RemoveQueryParam(path, key)) == Query(Splice(path, i, e))
  {
  }

  /** Equal queries have equal parameters. */
  lemma PartsEq(a: string, b: string)
    requires a == b
    ensures Parts(a) == Parts(b)
  {
  }

  /** Cutting the first of several parameters keeps the `?`. */
  lemma CutFirstOfMore(path: string, q: nat, e: nat)
    requires q == QueryStart(path) && q < e < |path| && path[e] == '&' && '?' !in path[q + 1..]
    ensures Parts(Query(Splice(path, q, e))) == Parts(Cut(path, q, q, e))
    ensures '?' !in Query(Splice(path, q, e))
  {
    SpliceFirstOfMore(path, q, e);
    PartsEq(Query(Splice(path, q, e)), path[e + 1..]);
    PartsAtAmp(path, e);
    PartsEq(Cut(path, q, q, e), path[e..]);
  }

  lemma SpliceFirstOfMore(path: string, q: nat, e: nat)
    requires q == QueryStart(path) && q < e < |path| && '?' !in path[q + 1..]
    ensures Query(Splice(path, q, e)) == path[e + 1..] && '?' !in path[e + 1..]
    ensures Cut(path, q, q, e) == path[e..]
  {
    assert Splice(path, q, e) == path[..q + 1] + path[e + 1..];
    QueryAfterFirstCut(path, q, e + 1);
  }

  /** Cutting the only parameter drops the query. */
  lemma CutOnly(path: string, q: nat)
    requires q == QueryStart(path) && q < |path|
    ensures Parts(Query(Splice(path, q, |path|))) == Parts(Cut(path, q, q, |path|))
    ensures '?' !in Query(Splice(path, q, |path|))
  {
    SpliceOnly(path, q);
    PartsEq(Query(Splice(path, q, |path|)), Cut(path, q, q, |path|));
  }

  lemma SpliceOnly(path: string, q: nat)
    requires q == QueryStart(path) && q < |path|
    ensures Query(Splice(path, q, |path|)) == Cut(path, q, q, |path|) == ""
  {
    assert Splice(path, q, |path|) == path[..q] + path[|path|..];
    QueryDropped(path, q);
  }

  /** Cutting a later parameter keeps the query in front of it. */
  lemma CutLater(path: string, q: nat, i: nat, e: nat)
    requires q == QueryStart(path) && q < i < e <= |path| && path[i] != '?' && '?' !in path[q + 1..]
    ensures Parts(Query(Splice(path, i, e))) == Parts(Cut(path, q, i, e))
    ensures '?' !in Query(Splice(path, i, e))
  {
    SpliceLater(path, q, i, e);
    PartsEq(Query(Splice(path, i, e)), Cut(path, q, i, e));
  }

  lemma SpliceLater(path: string, q: nat, i: nat, e: nat)
    requires q == QueryStart(path) && q < i < e <= |path| && path[i] != '?' && '?' !in path[q + 1..]
    ensures Query(Splice(path, i, e)) == Cut(path, q, i, e) && '?' !in Cut(path, q, i, e)
  {
    assert Splice(path, i, e) == path[..i] + path[e..];
    QueryAfterCut(path, q, i, e);
  }

  /** Cutting right behind the `?` leaves the rest as the query. */
  lemma QueryAfterFirstCut(path: string, q: nat, m: nat)
    requires q == QueryStart(path) && q < m <= |path| && '?' !in path[q + 1..]
    ensures Query(path[..q + 1] + path[m..]) == path[m..]
    ensures '?' !in path[m..]
  {
    var r := path[..q + 1] + path[m..];
    QueryStartFirst(path);
    QueryStartIs(r, q);
    assert r[q + 1..] == path[m..];
    NotInSuffix(path, '?', q + 1, m);
  }

  /** Cutting `path[k..m]` behind the `?` leaves the query with the same cut. */
  lemma QueryAfterCut(path: string, q: nat, k: nat, m: nat)
    requires q == QueryStart(path) && q < k <= m <= |path| && '?' !in path[q + 1..]
    ensures Query(path[..k] + path[m..]) == path[q + 1..k] + path[m..]
    ensures '?' !in path[q + 1..k] + path[m..]
  {
    var r := path[..k] + path[m..];
    QueryStartFirst(path);
    QueryStartIs(r, q);
    assert r[q + 1..] == path[q + 1..k] + path[m..];
    forall j | q + 1 <= j < |path| ensures path[j] != '?' {
      assert path[j] == path[q + 1..][j - q - 1];
    }
  }

  /** Cutting everything from the `?` on leaves no query. */
  lemma QueryDropped(path: string, q: nat)
    requires q == QueryStart(path) && q < |path|
    ensures Query(path[..q] + path[|path|..]) == ""
  {
    var r := path[..q] + path[|path|..];
    assert r == path[..q];
    QueryStartFirst(path);
    QueryStartIs(r, q);
  }

  /** Skipping the parameter in front of the next `&` when the match is further on. */
  lemma CutSkip(s: string, p: nat, e: nat, i: nat, v: nat)
    requires NextAmp(s, p, e) && e < |s| && e <= i <= v <= |s| && (v < |s| ==> s[v] == '&')
    ensures Parts(Cut(s, p, i, v)) == Piece(s[p + 1..e]) + Parts(Cut(s, e, i, v))
  {
    NoAmpPiece(s, p, e);
    if i == e {
      PartsAfterPiece(s[p + 1..e], s[v..]);
    } else {
      SliceAround(s, p + 1, e, i, s[v..]);
      JoinAfterPiece(s[p + 1..e], s[e + 1..i] + s[v..]);
    }
  }

  /** The parameter after a separator holds no `&`. */
  lemma NoAmpPiece(s: string, p: nat, e: nat)
    requires NextAmp(s, p, e)
    ensures '&' !in s[p + 1..e]
  {
    var a := s[p + 1..e];
    forall k | 0 <= k < |a| ensures a[k] != '&' {
      assert a[k] == s[p + 1 + k];
    }
  }

  /** A match right at the separator removes the first parameter. */
  lemma FindParamPartsHere(s: string, key: string, p: nat, e: nat)
    requires ParamAt(s, p, key) && '&' !in key && NextAmp(s, p, e)
    ensures CutsFirstValued(s, key, p)
  {
    ParamStartsPiece(s, key, p, e);
    PartsCutHead(s, key, p, e);
  }

  /** Cutting a leading `key=value` parameter. */
  lemma PartsCutHead(s: string, key: string, p: nat, e: nat)
    requires NextAmp(s, p, e) && StartsKey(s[p + 1..e], key)
    ensures Parts(s[e..]) == RemoveFirstValued(Parts(s[p + 1..]), key)
  {
    PartsHead(s, p, e);
    var rest := if e < |s| then Parts(s[e + 1..]) else [];
    RemoveFirstValuedHead(s[p + 1..e], rest, key);
    PartsAtAmp(s, e);
  }

  /** `Parts` read one step. */
  lemma PartsUnfold(t: string)
    ensures var j := IndexOf(t, '&'); Parts(t) == Piece(t[..j]) + (if j < |t| then Parts(t[j + 1..]) else [])
  {
  }

  /** The first parameter after the separator `p`, and the separators after it. */
  lemma PartsHead(s: string, p: nat, e: nat)
    requires NextAmp(s, p, e)
    ensures Parts(s[p + 1..]) == Piece(s[p + 1..e]) + (if e < |s| then Parts(s[e + 1..]) else [])
  {
    NextAmpIndex(s, p, e);
    if e < |s| {
      PartsHeadAmp(s, p, e);
    } else {
      PartsHeadLast(s, p, e);
    }
  }

  /** The first parameter after `p` runs up to the `&` at `e`. */
  lemma PartsHeadAmp(s: string, p: nat, e: nat)
    requires p < e < |s| && IndexOf(s[p + 1..], '&') == e - p - 1
    ensures Parts(s[p + 1..]) == Piece(s[p + 1..e]) + Parts(s[e + 1..])
  {
    DropSplit(s, p + 1, e - p - 1, e);
    DropSplit(s, p + 1, e - p, e + 1);
    PartsAmpAt(s[p + 1..], e - p - 1, s[p + 1..e], s[e + 1..]);
  }

  /** `Parts` read one step at its first `&`, with the text before and after it named. */
  lemma PartsAmpAt(t: string, j: nat, a: string, b: string)
    requires j < |t| && IndexOf(t, '&') == j && a == t[..j] && b == t[j + 1..]
    ensures Parts(t) == Piece(a) + Parts(b)
  {
  }

  /** The first parameter after `p` runs to the end. */
  lemma PartsHeadLast(s: string, p: nat, e: nat)
    requires p < e == |s| && IndexOf(s[p + 1..], '&') == e - p - 1
    ensures Parts(s[p + 1..]) == Piece(s[p + 1..e])
  {
    var t := s[p + 1..];
    PartsUnfold(t);
    DropSplit(s, p + 1, e - p - 1, e);
  }

  /** A leading `&` adds no parameter. */
  lemma PartsAmp(x: string)
    ensures Parts(['&'] + x) == Parts(x)
  {
    var t := ['&'] + x;
    IndexOfIs(t, '&', 0);
    PartsUnfold(t);
    assert t[..0] == [] && t[1..] == x;
  }

  /** What follows a value is `&…` or nothing, and the `&` adds no parameter. */
  lemma PartsAtAmp(s: string, e: nat)
    requires e <= |s| && (e < |s| ==> s[e] == '&')
    ensures Parts(s[e..]) == if e < |s| then Parts(s[e + 1..]) else []
  {
    if e < |s| {
      PartsAmp(s[e + 1..]);
      assert s[e..] == ['&'] + s[e + 1..];
    }
  }

  /** A `key=value` piece right after a separator is a match of `[?&]key=`. */
  lemma StartsKeyParamAt(s: string, key: string, p: nat, b: nat)
    requires p < b <= |s| && (s[p] == '?' || s[p] == '&') && StartsKey(s[p + 1..b], key)
    ensures ParamAt(s, p, key)
  {
    SliceOfSlice(s, p + 1, b, |key|);
    assert s[p + 1..b][|key|] == s[p + 1 + |key|];
  }

  /** No match at a separator means the first parameter is not `key=value`, and the
      search goes on from the next `&`. */
  lemma NotParamSkip(s: string, key: string, p: nat, e: nat)
    requires NextAmp(s, p, e) && (s[p] == '?' || s[p] == '&') && !ParamAt(s, p, key) && '?' !in s[p + 1..]
    ensures !StartsKey(s[p + 1..e], key)
    ensures FindParam(s, key, p) == FindParam(s, key, e)
    ensures Parts(s[p + 1..]) == Piece(s[p + 1..e]) + (if e < |s| then Parts(s[e + 1..]) else [])
  {
    PartsHead(s, p, e);
    forall k | p + 1 <= k < e ensures s[k] != '?' {
      assert s[k] == s[p + 1..][k - p - 1];
    }
    FindParamSkip(s, key, p + 1, e);
    if StartsKey(s[p + 1..e], key) {
      StartsKeyParamAt(s, key, p, e);
    }
  }

  /** The first parameter is `a`, which is not cut, followed by what `&` gives. */
  lemma JoinAfterPiece(a: string, x: string)
    requires '&' !in a
    ensures Parts(a + (['&'] + x)) == Piece(a) + Parts(x)
  {
    PartsAfterPiece(a, ['&'] + x);
    PartsAmp(x);
  }

  /** A match at the separator `p` is the first parameter after it. */
  lemma ParamStartsPiece(s: string, key: string, p: nat, e: nat)
    requires ParamAt(s, p, key) && '&' !in key && NextAmp(s, p, e)
    ensures FindParam(s, key, p) == Some(p)
    ensures StartsKey(s[p + 1..e], key)
    ensures MatchEnd(s, key, p) == e
  {
    forall k | p + 1 <= k < p + 1 + |key| ensures s[k] != '&' {
      assert s[k] == s[p + 1..p + 1 + |key|][k - p - 1];
    }
    assert e > p + 1 + |key|;
    SliceOfSlice(s, p + 1, e, |key|);
    ValueEndIs(s, p + |key| + 2, e);
  }

  /** `[^&]*` from `j` stops at `e` when no `&` comes before it and one (or the end) is there. */
  lemma {:induction false} ValueEndIs(s: string, j: nat, e: nat)
    requires j <= e <= |s| && (e < |s| ==> s[e] == '&')
    requires forall k :: j <= k < e ==> s[k] != '&'
    ensures ValueEnd(s, j) == e
    decreases e - j
  {
    if j < e {
      ValueEndIs(s, j + 1, e);
    }
  }

  /** `[?&]key=` cannot match where there is no separator. */
  lemma {:induction false} FindParamSkip(s: string, key: string, a: nat, b: nat)
    requires a <= b <= |s|
    requires forall k :: a <= k < b ==> s[k] != '&' && s[k] != '?'
    ensures FindParam(s, key, a) == FindParam(s, key, b)
    decreases b - a
  {
    if a < b {
      FindParamSkip(s, key, a + 1, b);
    }
  }

  /** A leading `key=value` parameter is the one removed. */
  lemma RemoveFirstValuedHead(a: string, rest: seq<string>, key: string)
    requires StartsKey(a, key)
    ensures RemoveFirstValued(Piece(a) + rest, key) == rest
  {
    assert ([a] + rest)[0] == a && ([a] + rest)[1..] == rest;
  }

  /** A leading parameter that is not `key=value` stays in front. */
  lemma RemoveFirstValuedSkip(a: string, rest: seq<string>, key: string)
    requires !StartsKey(a, key)
    ensures RemoveFirstValued(Piece(a) + rest, key) == Piece(a) + RemoveFirstValued(rest, key)
  {
    if a != "" {
      assert ([a] + rest)[0] == a && ([a] + rest)[1..] == rest;
    } else {
      assert [] + rest == rest;
    }
  }

  // ---------------------------------------------------------------- counting parameters

  /** Removing the first `key=value` parameter never adds one of any name, and takes away one
      `key=value` when there is one. */
  lemma {:induction false} RemoveFirstValuedCount(parts: seq<string>, key: string, n: string)
    ensures CountValued(RemoveFirstValued(parts, key), n) <= CountValued(parts, n)
    ensures CountValued(RemoveFirstValued(parts, key), key) ==
      if CountValued(parts, key) > 0 then CountValued(parts, key) - 1 else 0
    decreases |parts|
  {
    if parts != [] && !StartsKey(parts[0], key) {
      RemoveFirstValuedCount(parts[1..], key, n);
      var r := RemoveFirstValued(parts, key);
      assert r[0] == parts[0] && r[1..] == RemoveFirstValued(parts[1..], key);
    }
  }

  /** Removing the first `key=value` parameter only takes away a `key=value` parameter. */
  lemma {:induction false} RemoveFirstValuedMultiset(parts: seq<string>, key: string)
    ensures multiset(RemoveFirstValued(parts, key)) <= multiset(parts)
    ensures forall x :: !StartsKey(x, key) ==> multiset(RemoveFirstValued(parts, key))[x] == multiset(parts)[x]
    decreases |parts|
  {
    if parts != [] {
      assert parts == [parts[0]] + parts[1..];
      if !StartsKey(parts[0], key) {
        RemoveFirstValuedMultiset(parts[1..], key);
      }
    }
  }

  /** A `key=value` parameter is counted. */
  lemma {:induction false} CountPositive(parts: seq<string>, x: string, key: string)
    requires x in parts && StartsKey(x, key)
    ensures CountValued(parts, key) > 0
    decreases |parts|
  {
    if parts[0] != x {
      CountPositive(parts[1..], x, key);
    }
  }

  /** Every `n=value` parameter yields the key `n`. */
  lemma {:induction false} CountedByNames(parts: seq<string>, n: string)
    requires '=' !in n
    ensures CountValued(parts, n) <= multiset(Names(parts))[n]
    decreases |parts|
  {
    if parts != [] {
      CountedByNames(parts[1..], n);
      if StartsKey(parts[0], n) {
        NameOfValued(parts[0], n);
      }
      assert Names(parts) == [Name(parts[0])] + Names(parts[1..]);
    }
  }

  /** A `key=value` parameter is disallowed exactly when its key is. */
  lemma ValuedDisallowed(x: string, key: string)
    requires StartsKey(x, key) && '=' !in key
    ensures Disallowed(x) <==> key !in ALLOWED_PARAMS
  {
    NameOfValued(x, key);
    assert x[|key|] in x;
  }

  /** What the sanitising loop keeps of the parameters `parts`, against the original ones:
      no more `n=value` parameters for a disallowed `n` than keys `n` still to handle; every
      other parameter as often as in the original; and nothing that was not there. */
  ghost predicate Bounded(parts: seq<string>, original: seq<string>, pending: seq<string>) {
    && (forall n :: '=' !in n && n !in ALLOWED_PARAMS ==> CountValued(parts, n) <= multiset(pending)[n])
    && (forall x :: !Disallowed(x) ==> multiset(parts)[x] == multiset(original)[x])
    && multiset(parts) <= multiset(original)
  }

  /** The loop's invariant: no second `?`, keys free of `&` and `=`, and `Bounded`. */
  ghost predicate Sanitizing(path: string, result: string, pending: seq<string>) {
    && '?' !in Query(result)
    && (forall k :: k in pending ==> '&' !in k && '=' !in k)
    && Bounded(Parts(Query(result)), Parts(Query(path)), pending)
  }

  /** Before the loop, the keys still to handle are all the keys of the query. */
  lemma SanitizingStart(path: string)
    requires '?' !in Query(path)
    ensures Sanitizing(path, path, QueryNames(path))
  {
    var parts := Parts(Query(path));
    PartsClean(Query(path));
    NamesClean(parts);
    forall n | '=' !in n && n !in ALLOWED_PARAMS
      ensures CountValued(parts, n) <= multiset(QueryNames(path))[n]
    {
      CountedByNames(parts, n);
    }
  }

  /** One key handled: an allowed one changes nothing, a disallowed one removes one
      parameter of its name. */
  lemma SanitizingStep(path: string, result: string, pending: seq<string>)
    requires Sanitizing(path, result, pending) && pending != []
    ensures Sanitizing(path, SanitizeStep(result, pending[0]), pending[1..])
  {
    var key := pending[0];
    assert pending == [key] + pending[1..];
    assert key in pending;
    forall k | k in pending[1..] ensures '&' !in k && '=' !in k {
      assert k in pending;
    }
    var before := Parts(Query(result));
    if key in ALLOWED_PARAMS {
      BoundedSkip(before, Parts(Query(path)), pending);
    } else {
      RemoveQueryParamParts(result, key);
      BoundedRemove(before, Parts(Query(path)), pending);
    }
  }

  /** An allowed key pending changes no bound. */
  lemma BoundedSkip(parts: seq<string>, original: seq<string>, pending: seq<string>)
    requires Bounded(parts, original, pending) && pending != [] && pending[0] in ALLOWED_PARAMS
    ensures Bounded(parts, original, pending[1..])
  {
    assert pending == [pending[0]] + pending[1..];
  }

  /** Removing the first `key=value` parameter for a disallowed `key` discharges one key. */
  lemma BoundedRemove(parts: seq<string>, original: seq<string>, pending: seq<string>)
    requires Bounded(parts, original, pending) && pending != []
    requires pending[0] !in ALLOWED_PARAMS && '=' !in pending[0]
    ensures Bounded(RemoveFirstValued(parts, pending[0]), original, pending[1..])
  {
    var key := pending[0];
    var after := RemoveFirstValued(parts, key);
    assert pending == [key] + pending[1..];
    RemoveFirstValuedMultiset(parts, key);
    forall n | '=' !in n && n !in ALLOWED_PARAMS
      ensures CountValued(after, n) <= multiset(pending[1..])[n]
    {
      RemoveFirstValuedCount(parts, key, n);
    }
    forall x | !Disallowed(x) ensures multiset(after)[x] == multiset(original)[x] {
      if StartsKey(x, key) {
        ValuedDisallowed(x, key);
      }
    }
  }

  /** The sanitiser's promise about the parameters: every `name=value` parameter left has an
      allowed name, every other parameter is kept as often as it occurred, and none is added. */
  ghost predicate OnlyAllowedLeft(path: string, result: string) {
    && (forall x :: x in Parts(Query(result)) ==> !Disallowed(x))
    && (forall x :: !Disallowed(x) ==> multiset(Parts(Query(result)))[x] == multiset(Parts(Query(path)))[x])
    && multiset(Parts(Query(result))) <= multiset(Parts(Query(path)))
  }

  /** After the loop no disallowed `name=value` parameter is left, and the rest is kept. */
  lemma SanitizingDone(path: string, result: string)
    requires Sanitizing(path, result, [])
    ensures OnlyAllowedLeft(path, result)
  {
    forall x | x in Parts(Query(result)) ensures !Disallowed(x) {
      if Disallowed(x) {
        ValuedHasName(x);
        CountPositive(Parts(Query(result)), x, Name(x));
      }
    }
  }

  /** A bare name is a key of the query but no `name=value` parameter, so `[?&]debug=` never
      matches it and the sanitiser's promise leaves it in place. */
  lemma BareNameKept(path: string)
    requires path == "/a?debug&lang=he"
    ensures QueryNames(path) == ["debug", "lang"]
    ensures Parts(Query(path)) == ["debug", "lang=he"]
    ensures !Disallowed("debug") && "debug" !in ALLOWED_PARAMS
  {
    ExampleQueryParts(path);
    ExampleNames();
    BareNameAllowedThrough();
  }

  lemma ExampleQueryParts(path: string)
    requires path == "/a?debug&lang=he"
    ensures Parts(Query(path)) == ["debug", "lang=he"]
  {
    ExampleQuery(path);
    PartsEq(Query(path), "debug&lang=he");
    ExampleParts();
  }

  /** `debug` is not allowed, but without `=` it is no `name=value` parameter. */
  lemma BareNameAllowedThrough()
    ensures !Disallowed("debug") && "debug" !in ALLOWED_PARAMS
  {
    assert '=' !in "debug";
  }

  lemma ExampleQuery(path: string)
    requires path == "/a?debug&lang=he"
    ensures Query(path) == "debug&lang=he"
  {
    QueryStartIs(path, 2);
    assert path[3..] == "debug&lang=he";
  }

  lemma ExampleParts()
    ensures Parts("debug&lang=he") == ["debug", "lang=he"]
  {
    var a, b := "debug", "lang=he";
    assert '&' !in a && '&' !in b;
    PartsJoin(a, b);
    PartsNoAmp(b);
    PartsEq("debug&lang=he", a + ['&'] + b);
  }

  /** A query without `&` is one parameter, or none when empty. */
  lemma PartsNoAmp(a: string)
    requires '&' !in a
    ensures Parts(a) == Piece(a)
  {
    IndexOfIs(a, '&', |a|);
    PartsUnfold(a);
    assert a[..|a|] == a;
  }

  /** An `&`-free text and an `&` in front of the rest of a query. */
  lemma PartsJoin(a: string, b: string)
    requires '&' !in a
    ensures Parts(a + ['&'] + b) == Piece(a) + Parts(b)
  {
    var t := a + ['&'] + b;
    forall k | 0 <= k < |a| ensures t[k] != '&' {
      assert t[k] == a[k];
    }
    IndexOfIs(t, '&', |a|);
    PartsUnfold(t);
    assert t[..|a|] == a && t[|a| + 1..] == b;
  }

  lemma ExampleNames()
    ensures Names(["debug", "lang=he"]) == ["debug", "lang"]
  {
    IndexOfIs("debug", '=', 5);
    IndexOfIs("lang=he", '=', 4);
    assert "lang=he"[..4] == "lang";
    assert "debug"[..5] == "debug";
    assert ["debug", "lang=he"][1..] == ["lang=he"];
  }

  /** One key of the request handled: an allowed one leaves the path alone, any other
      removes one parameter of that name. */
  function SanitizeStep(result: string, key: string): string {
    if key in ALLOWED_PARAMS then result else RemoveQueryParam(result, key)
  }

  /** `sanitizeProxyReq` with the intended removal: each key of the request, in order. */
  function SanitizeAll(path: string, keys: seq<string>): string
    decreases |keys|
  {
    if keys == [] then path else SanitizeAll(SanitizeStep(path, keys[0]), keys[1..])
  }

  /** The sanitiser only deletes characters, keeps the path part, and returns its input
      when every key of the request is allowed. */
  lemma {:induction false} SanitizeAllDeletesOnly(path: string, keys: seq<string>)
    ensures IsSubsequence(SanitizeAll(path, keys), path)
    ensures PathPart(SanitizeAll(path, keys)) == PathPart(path)
    ensures (forall k :: k in keys ==> k in ALLOWED_PARAMS) ==> SanitizeAll(path, keys) == path
    decreases |keys|
  {
    if keys == [] {
      SubsequenceReflexive(path);
    } else {
      var next := SanitizeStep(path, keys[0]);
      if keys[0] in ALLOWED_PARAMS {
        SubsequenceReflexive(path);
      } else {
        RemoveQueryParamKeepsPath(path, keys[0]);
      }
      SanitizeAllDeletesOnly(next, keys[1..]);
      SubsequenceTransitive(SanitizeAll(next, keys[1..]), next, path);
      if forall k :: k in keys ==> k in ALLOWED_PARAMS {
        assert keys[0] in keys;
        forall k | k in keys[1..] ensures k in ALLOWED_PARAMS {
          assert k in keys;
        }
      }
    }
  }

  /** Handling the keys still pending leaves no disallowed `name=value` parameter. */
  lemma {:induction false} SanitizeAllPending(path: string, result: string, pending: seq<string>)
    requires Sanitizing(path, result, pending)
    ensures OnlyAllowedLeft(path, SanitizeAll(result, pending))
    decreases |pending|
  {
    if pending == [] {
      SanitizingDone(path, result);
    } else {
      SanitizingStep(path, result, pending);
      SanitizeAllPending(path, SanitizeStep(result, pending[0]), pending[1..]);
    }
  }

  /** With the keys of the path's own query (which holds no second `?`), every
      `name=value` parameter left has an allowed name, and every other parameter is kept as
      often as it occurred. */
  lemma SanitizeAllOnlyAllowed(path: string)
    requires '?' !in Query(path)
    ensures OnlyAllowedLeft(path, SanitizeAll(path, QueryNames(path)))
  {
    SanitizingStart(path);
    SanitizeAllPending(path, path, QueryNames(path));
  }

  /** `sanitizeProxyReq` with the intended removal: every key of the request that is not
      allowed removes one parameter of that name. */
  method SanitizeProxyPath(path: string, keys: seq<string>) returns (result: string)
    ensures result == SanitizeAll(path, keys)
  {
    result := path;
    for i := 0 to |keys|
      invariant SanitizeAll(result, keys[i..]) == SanitizeAll(path, keys)
    {
      assert keys[i..][1..] == keys[i + 1..];
      if keys[i] !in ALLOWED_PARAMS {
        result := RemoveQueryParam(result, keys[i]);
      }
    }
    assert keys[|keys|..] == [];
  }

  // ---------------------------------------------------------------- routing

  /** The four proxied routes, in registration order. */
  datatype Route = AlertsRoute | HistoryRangeRoute | HistoryRoute | CitiesRoute

  /** What answers a request. */
  datatype Decision =
    | PayloadTooLarge    // 413
    | MethodNotAllowed   // 405
    | BadFromDate        // 400
    | BadToDate          // 400
    | Forward(route: Route)
    | ApiNotFound        // 404
    | NotApi             // static files and the page itself

  /** The status code a decision answers with; a forwarded request answers with the
      upstream's status. */
  function StatusOf(d: Decision): Option<int> {
    match d
    case PayloadTooLarge => Some(413)
    case MethodNotAllowed => Some(405)
    case BadFromDate => Some(400)
    case BadToDate => Some(400)
    case ApiNotFound => Some(404)
    case _ => None
  }

  datatype Request = Request(verb: string, contentLength: Option<string>, pathname: string,
                             fromDate: QueryValue, toDate: QueryValue)

  function AsciiLower(c: char): char {
    if 'A' <= c <= 'Z' then (c as int + 32) as char else c
  }

  function Lower(s: string): (r: string)
    ensures |r| == |s| && forall i :: 0 <= i < |s| ==> r[i] == AsciiLower(s[i])
  {
    seq(|s|, i requires 0 <= i < |s| => AsciiLower(s[i]))
  }

  /** `app.use(mount, …)` handles the mount path itself and everything below it,
      ignoring letter case. */
  predicate MountMatches(pathname: string, mount: string) {
    var p := Lower(pathname);
    p == mount || IsPrefix(mount + "/", p)
  }

  predicate MatchesSomeRoute(pathname: string) {
    MountMatches(pathname, "/api/alerts") || MountMatches(pathname, "/api/history-range")
    || MountMatches(pathname, "/api/history") || MountMatches(pathname, "/api/cities")
  }

  /** The middleware chain: size, then method, then the routes in order, then the `/api`
      fallback. */
  function Decide(req: Request): Decision {
    if TooLarge(req.contentLength) then PayloadTooLarge
    else if !MethodAllowed(req.verb) then MethodNotAllowed
    else if MountMatches(req.pathname, "/api/alerts") then Forward(AlertsRoute)
    else if MountMatches(req.pathname, "/api/history-range") then
      match ValidateHistoryRangeParams(req.fromDate, req.toDate)
      case InvalidFromDate => BadFromDate
      case InvalidToDate => BadToDate
      case Accept => Forward(HistoryRangeRoute)
    else if MountMatches(req.pathname, "/api/history") then Forward(HistoryRoute)
    else if MountMatches(req.pathname, "/api/cities") then Forward(CitiesRoute)
    else if MountMatches(req.pathname, "/api") then ApiNotFound
    else NotApi
  }

  /** The size gate comes first: an oversized request is refused with 413 whatever its
      method or path, so an oversized POST never reaches the method gate. */
  lemma SizeGateFirst(req: Request)
    requires TooLarge(req.contentLength)
    ensures Decide(req) == PayloadTooLarge && StatusOf(Decide(req)) == Some(413)
  {
  }

  /** Past the size gate, 405 answers exactly the methods other than GET, HEAD and
      OPTIONS. */
  lemma MethodGateIff(req: Request)
    requires !TooLarge(req.contentLength)
    ensures Decide(req) == MethodNotAllowed <==> !MethodAllowed(req.verb)
  {
  }

  /** Among allowed requests, an `/api` path that no route mounts gets 404, and 404 is
      given only to such paths. */
  lemma ApiFallbackIff(req: Request)
    requires !TooLarge(req.contentLength) && MethodAllowed(req.verb)
    ensures Decide(req) == ApiNotFound <==> MountMatches(req.pathname, "/api") && !MatchesSomeRoute(req.pathname)
  {
  }

  /** Only the history-range route checks dates, and it forwards exactly when the check
      accepts. */
  lemma DatesCheckedOnlyOnRange(req: Request)
    ensures Decide(req) == BadFromDate || Decide(req) == BadToDate ==>
      MountMatches(req.pathname, "/api/history-range") && !MountMatches(req.pathname, "/api/alerts")
    ensures Decide(req) == Forward(HistoryRangeRoute) ==>
      ValidateHistoryRangeParams(req.fromDate, req.toDate) == Accept
  {
  }

  /** A path below a mount is routed there; `/api/history-range` is not taken for
      `/api/history`, since mounts match whole segments. */
  lemma SegmentMatching()
    ensures MountMatches("/api/history/x", "/api/history")
    ensures !MountMatches("/api/history-range", "/api/history")
    ensures MountMatches("/API/Alerts", "/api/alerts")
  {
    assert Lower("/api/history/x")[..13] == "/api/history/";
    assert Lower("/api/history-range")[12] == '-';
    assert Lower("/API/Alerts") == "/api/alerts";
  }
}
