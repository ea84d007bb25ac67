/** The start-up integrity checks of src/integrityCheck.ts: three endpoint tests over an
    abstract HTTP response, four checks over the history records, and the report that
    only the first two tests can fail. Fetching, timeouts and `JSON.parse` are inputs:
    a response carries its ok flag, status, body and the parse result. */
module IntegrityCheck {
  import opened Wrappers
  import opened Text
  import opened Types
  import opened JsonValue

  /** `VALID_CATEGORIES`: the eight codes of `ALERT_CATEGORY`. */
  const VALID_CATEGORIES: set<int> :=
    {MISSILES, HOSTILE_AIRCRAFT, EARTHQUAKE, TERRORIST_INFILTRATION, TSUNAMI, HAZARDOUS_MATERIALS, END, PRE_ALERT}
  /** The structure check reads only this many records. */
  const STRUCTURE_SAMPLE := 50
  /** The consistency check compares the areas of this many records of each source. */
  const OVERLAP_SAMPLE := 200
  /** The freshness limit, 24 hours in milliseconds. */
  const DAY_MS := 24 * 60 * 60 * 1000

  /** The result of a fetch: a thrown error (network failure, abort) or a response, with
      `parsed` the value of `JSON.parse(body)` or `None` when it throws. */
  datatype Response =
    | Unreachable
    | Http(ok: bool, status: int, body: string, parsed: Option<Json>)

  /** The seven checks, named in report order (the source names them in Hebrew). */
  datatype CheckName = AlertsEndpoint | HistoryEndpoint | RangeEndpoint | Structure | Categories | Freshness | Consistency

  /** Which message a result carries; the Hebrew texts themselves are not modelled. */
  datatype Detail =
    | ServerError(status: int) | InvalidJson | Responding | CannotConnect
    | EmptyResponse | NotAnArray | NoRecords | Received(count: nat) | NoDataToday
    | NothingToCheck
    | MissingAlertDate | MissingArea | MissingCategory | StructureOk
    | UnknownCategories | KnownCategories(hasDanger: bool, hasEnd: bool)
    | InvalidNewestDate | Stale | Fresh
    | BothSourcesEmpty | OneSourceOnly | NoOverlap | CommonAreas(count: nat)

  /** `TestResult` */
  datatype TestResult = TestResult(name: CheckName, passed: bool, detail: Detail)

  /** `{ result, data }` of the two history tests. */
  datatype EndpointResult = EndpointResult(result: TestResult, data: seq<Json>)

  /** A check that either returns or throws a `TypeError` (property access on `null`). */
  datatype Completion<T> = Returns(value: T) | Throws

  // ---------------------------------------------------------------- endpoint tests

  /** `testAlertsEndpoint`: the live feed is healthy when it answers ok with an empty
      body or with JSON. */
  function TestAlertsEndpoint(res: Response): (r: TestResult)
    ensures r.name == AlertsEndpoint
    ensures r.passed <==> res.Http? && res.ok && (IsBlank(res.body) || res.parsed.Some?)
  {
    if res.Unreachable? then TestResult(AlertsEndpoint, false, CannotConnect)
    else if !res.ok then TestResult(AlertsEndpoint, false, ServerError(res.status))
    else if !IsBlank(res.body) && res.parsed.None? then TestResult(AlertsEndpoint, false, InvalidJson)
    else TestResult(AlertsEndpoint, true, Responding)
  }

  /** `testHistoryEndpoint`: the full history is healthy only as a non-empty JSON array,
      whose records it hands on; every failure hands on no records. */
  function TestHistoryEndpoint(res: Response): (r: EndpointResult)
    ensures r.result.name == HistoryEndpoint
    ensures r.result.passed <==>
      res.Http? && res.ok && !IsBlank(res.body) && res.parsed.Some? && res.parsed.value.JArr?
      && res.parsed.value.items != []
    ensures r.result.passed ==> r.data == res.parsed.value.items && r.result.detail == Received(|r.data|)
    ensures !r.result.passed ==> r.data == []
  {
    if res.Unreachable? then EndpointResult(TestResult(HistoryEndpoint, false, CannotConnect), [])
    else if !res.ok then EndpointResult(TestResult(HistoryEndpoint, false, ServerError(res.status)), [])
    else if IsBlank(res.body) then EndpointResult(TestResult(HistoryEndpoint, false, EmptyResponse), [])
    else if res.parsed.None? then EndpointResult(TestResult(HistoryEndpoint, false, InvalidJson), [])
    else if !res.parsed.value.JArr? then EndpointResult(TestResult(HistoryEndpoint, false, NotAnArray), [])
    else if res.parsed.value.items == [] then EndpointResult(TestResult(HistoryEndpoint, false, NoRecords), [])
    else
      var items := res.parsed.value.items;
      EndpointResult(TestResult(HistoryEndpoint, true, Received(|items|)), items)
  }

  /** `testHistoryRangeEndpoint`: the day's history is healthy when it answers ok with an
      empty body or with any JSON array, the empty one included. */
  function TestHistoryRangeEndpoint(res: Response): (r: EndpointResult)
    ensures r.result.name == RangeEndpoint
    ensures r.result.passed <==>
      res.Http? && res.ok && (IsBlank(res.body) || (res.parsed.Some? && res.parsed.value.JArr?))
    ensures r.result.passed && !IsBlank(res.body) ==> r.data == res.parsed.value.items
    ensures !r.result.passed || IsBlank(res.body) ==> r.data == []
  {
    if res.Unreachable? then EndpointResult(TestResult(RangeEndpoint, false, CannotConnect), [])
    else if !res.ok then EndpointResult(TestResult(RangeEndpoint, false, ServerError(res.status)), [])
    else if IsBlank(res.body) then EndpointResult(TestResult(RangeEndpoint, true, NoDataToday), [])
    else if res.parsed.None? then EndpointResult(TestResult(RangeEndpoint, false, InvalidJson), [])
    else if !res.parsed.value.JArr? then EndpointResult(TestResult(RangeEndpoint, false, NotAnArray), [])
    else
      var items := res.parsed.value.items;
      EndpointResult(TestResult(RangeEndpoint, true, Received(|items|)), items)
  }

  // ---------------------------------------------------------------- structure

  /** `typeof p === 'string' && p` */
  predicate NonEmptyString(p: Prop) {
    p.Value? && p.value.JStr? && p.value.s != ""
  }

  /** `typeof p === 'number'` */
  predicate IsNumber(p: Prop) {
    p.Value? && p.value.JNum?
  }

  /** A record with a date, an area and a numeric category. */
  predicate WellFormed(v: Json) {
    v != JNull && NonEmptyString(Get(v, "alertDate")) && NonEmptyString(Get(v, "data")) && IsNumber(Get(v, "category"))
  }

  /** The first field a record lacks, in the order the check tests them. */
  function StructureProblem(v: Json): (r: Option<Detail>)
    requires v != JNull
    ensures r.None? <==> WellFormed(v)
  {
    if !NonEmptyString(Get(v, "alertDate")) then Some(MissingAlertDate)
    else if !NonEmptyString(Get(v, "data")) then Some(MissingArea)
    else if !IsNumber(Get(v, "category")) then Some(MissingCategory)
    else None
  }

  /** `sample[i]` is `null` and every record before it is well formed. */
  predicate FirstBadIsNull(sample: seq<Json>, i: int) {
    0 <= i < |sample| && sample[i] == JNull && forall j :: 0 <= j < i ==> WellFormed(sample[j])
  }

  /** The record-by-record scan with early return: the first bad record decides. */
  function ScanStructure(sample: seq<Json>): (c: Completion<Option<Detail>>)
    ensures c == Returns(None) <==> forall i :: 0 <= i < |sample| ==> WellFormed(sample[i])
    ensures c == Throws <==> exists i :: FirstBadIsNull(sample, i)
    decreases |sample|
  {
    if sample == [] then Returns(None)
    else if sample[0] == JNull then
      assert FirstBadIsNull(sample, 0);
      Throws
    else if StructureProblem(sample[0]).Some? then
      assert !FirstBadIsNull(sample, 0);
      Returns(StructureProblem(sample[0]))
    else
      var c := ScanStructure(sample[1..]);
      assert forall i :: 1 <= i < |sample| ==> sample[1..][i - 1] == sample[i];
      FirstBadIsNullInTail(sample);
      c
  }

  /** Past a well-formed first record, the first bad record is the tail's first bad record. */
  lemma FirstBadIsNullInTail(sample: seq<Json>)
    requires sample != [] && WellFormed(sample[0])
    ensures (exists i :: FirstBadIsNull(sample, i)) <==> (exists k :: FirstBadIsNull(sample[1..], k))
  {
    if exists i :: FirstBadIsNull(sample, i) {
      var i :| FirstBadIsNull(sample, i);
      assert sample[1..][i - 1] == sample[i];
      forall j | 0 <= j < i - 1 ensures WellFormed(sample[1..][j]) {
        assert sample[1..][j] == sample[j + 1];
      }
      assert FirstBadIsNull(sample[1..], i - 1);
    }
    if exists k :: FirstBadIsNull(sample[1..], k) {
      var k :| FirstBadIsNull(sample[1..], k);
      forall j | 0 <= j < k + 1 ensures WellFormed(sample[j]) {
        if j > 0 {
          assert sample[j] == sample[1..][j - 1];
        }
      }
      assert FirstBadIsNull(sample, k + 1);
    }
  }

  function SampleSize(data: seq<Json>, limit: nat): (n: nat)
    ensures n <= |data| && n <= limit
  {
    if |data| < limit then |data| else limit
  }

  /** `testAlertStructure` as a value: empty input passes; otherwise the scan of the first
      50 records decides. */
  function StructureCheck(data: seq<Json>): Completion<TestResult> {
    if data == [] then Returns(TestResult(Structure, true, NothingToCheck))
    else
      match ScanStructure(data[..SampleSize(data, STRUCTURE_SAMPLE)])
      case Throws => Throws
      case Returns(None) => Returns(TestResult(Structure, true, StructureOk))
      case Returns(Some(d)) => Returns(TestResult(Structure, false, d))
  }

  /** `testAlertStructure`: a `for` loop over the first 50 records that returns at the
      first record lacking a field. */
  method TestAlertStructure(data: seq<Json>) returns (c: Completion<TestResult>)
    ensures c == StructureCheck(data)
  {
    if |data| == 0 {
      return Returns(TestResult(Structure, true, NothingToCheck));
    }
    var n := SampleSize(data, STRUCTURE_SAMPLE);
    ghost var sample := data[..n];
    var i := 0;
    while i < n
      invariant 0 <= i <= n
      invariant ScanStructure(sample) == ScanStructure(sample[i..])
    {
      var alert := data[i];
      assert sample[i..][0] == alert && sample[i..][1..] == sample[i + 1..];
      if alert == JNull {
        return Throws;
      }
      if !NonEmptyString(Get(alert, "alertDate")) {
        return Returns(TestResult(Structure, false, MissingAlertDate));
      }
      if !NonEmptyString(Get(alert, "data")) {
        return Returns(TestResult(Structure, false, MissingArea));
      }
      if !IsNumber(Get(alert, "category")) {
        return Returns(TestResult(Structure, false, MissingCategory));
      }
      i := i + 1;
    }
    assert sample[n..] == [];
    return Returns(TestResult(Structure, true, StructureOk));
  }

  /** The structure check passes exactly when the first 50 records are well formed. */
  lemma StructurePassesIff(data: seq<Json>)
    ensures StructureCheck(data).Returns? && StructureCheck(data).value.passed <==>
      forall i :: 0 <= i < SampleSize(data, STRUCTURE_SAMPLE) ==> WellFormed(data[i])
  {
    var sample := data[..SampleSize(data, STRUCTURE_SAMPLE)];
    assert forall i :: 0 <= i < |sample| ==> sample[i] == data[i];
  }

  /** Records past the 50th are never read: replacing them changes nothing. */
  lemma StructureReadsOnlySample(data: seq<Json>, rest: seq<Json>)
    requires |data| >= STRUCTURE_SAMPLE
    ensures StructureCheck(data[..STRUCTURE_SAMPLE] + rest) == StructureCheck(data)
  {
    var other := data[..STRUCTURE_SAMPLE] + rest;
    assert other[..STRUCTURE_SAMPLE] == data[..STRUCTURE_SAMPLE];
  }

  // ---------------------------------------------------------------- categories

  /** A category the vocabulary knows: a number among the eight codes. */
  predicate KnownCategory(p: Prop) {
    p.Value? && p.value.JNum? && p.value.n in VALID_CATEGORIES
  }

  /** `new Set(data.map((a) => a.category))` */
  function CategorySet(data: seq<Json>): set<Prop>
    requires JNull !in data
  {
    set v | v in data :: Get(v, "category")
  }

  /** `categoriesArr.filter((c) => !VALID_CATEGORIES.has(c))` */
  function Unrecognised(categories: set<Prop>): set<Prop> {
    set c | c in categories && !KnownCategory(c)
  }

  /** `testAlertCategories`: every record is read (`null` throws); it fails iff the set
      of categories holds one outside the vocabulary. */
  function CategoriesCheck(data: seq<Json>): Completion<TestResult> {
    if data == [] then Returns(TestResult(Categories, true, NothingToCheck))
    else if JNull in data then Throws
    else
      var categories := CategorySet(data);
      if Unrecognised(categories) != {} then Returns(TestResult(Categories, false, UnknownCategories))
      else
        var hasDanger := exists c :: c in categories && c.Value? && c.value.JNum? && c.value.n in DANGER_CATEGORIES;
        var hasEnd := Value(JNum(END)) in categories;
        Returns(TestResult(Categories, true, KnownCategories(hasDanger, hasEnd)))
  }

  /** The categories check passes exactly when every record, not a sample, has a known category. */
  lemma CategoriesPassIff(data: seq<Json>)
    requires JNull !in data
    ensures CategoriesCheck(data).Returns?
    ensures CategoriesCheck(data).value.passed <==>
      forall i :: 0 <= i < |data| ==> KnownCategory(Get(data[i], "category"))
  {
    if data != [] {
      var categories := CategorySet(data);
      if forall i :: 0 <= i < |data| ==> KnownCategory(Get(data[i], "category")) {
        forall c | c in categories ensures KnownCategory(c) {
          var v :| v in data && Get(v, "category") == c;
          var i :| 0 <= i < |data| && data[i] == v;
        }
      } else {
        var i :| 0 <= i < |data| && !KnownCategory(Get(data[i], "category"));
        var c := Get(data[i], "category");
        assert data[i] in data;
        assert c in categories;
        assert c in Unrecognised(categories);
      }
    }
  }

  // ---------------------------------------------------------------- freshness

  /** `new Date(alertDate).getTime()`: a millisecond value or NaN. */
  datatype DateValue = ValidDate(ms: int) | InvalidDate

  /** The date of the first record after the newest-first sort: the latest date when
      every date is valid, and invalid otherwise. */
  function NewestDate(data: seq<Json>, dateOf: Prop -> DateValue): (d: DateValue)
    requires JNull !in data && data != []
    ensures d.InvalidDate? <==> exists v :: v in data && dateOf(Get(v, "alertDate")).InvalidDate?
    ensures d.ValidDate? ==> forall v :: v in data ==>
      (dateOf(Get(v, "alertDate")).ValidDate? && dateOf(Get(v, "alertDate")).ms <= d.ms)
    ensures d.ValidDate? ==> exists v :: v in data && dateOf(Get(v, "alertDate")) == d
    decreases |data|
  {
    var here := dateOf(Get(data[0], "alertDate"));
    assert data == [data[0]] + data[1..];
    if |data| == 1 then here
    else
      match NewestDate(data[1..], dateOf)
      case InvalidDate => InvalidDate
      case ValidDate(rest) =>
        if here.InvalidDate? then InvalidDate
        else if here.ms >= rest then here
        else ValidDate(rest)
  }

  /** `testDataFreshness`: empty input passes; otherwise it fails iff the newest date is
      invalid or more than 24 hours before `now`. */
  function FreshnessCheck(data: seq<Json>, now: int, dateOf: Prop -> DateValue): Completion<TestResult> {
    if data == [] then Returns(TestResult(Freshness, true, NothingToCheck))
    else if JNull in data then Throws
    else
      match NewestDate(data, dateOf)
      case InvalidDate => Returns(TestResult(Freshness, false, InvalidNewestDate))
      case ValidDate(t) =>
        if now - t > DAY_MS then Returns(TestResult(Freshness, false, Stale))
        else Returns(TestResult(Freshness, true, Fresh))
  }

  /** With valid dates the check passes exactly when some record is at most 24 hours old. */
  lemma FreshnessPassesIff(data: seq<Json>, now: int, dateOf: Prop -> DateValue)
    requires data != [] && JNull !in data
    requires forall v :: v in data ==> dateOf(Get(v, "alertDate")).ValidDate?
    ensures FreshnessCheck(data, now, dateOf).Returns?
    ensures FreshnessCheck(data, now, dateOf).value.passed <==>
      exists v :: v in data && now - dateOf(Get(v, "alertDate")).ms <= DAY_MS
  {
    var d := NewestDate(data, dateOf);
    assert d.ValidDate?;
  }

  /** Exactly 24 hours old still passes; one millisecond more fails. */
  lemma FreshnessBoundary(v: Json, t: int, dateOf: Prop -> DateValue)
    requires v != JNull && dateOf(Get(v, "alertDate")) == ValidDate(t)
    ensures FreshnessCheck([v], t + DAY_MS, dateOf) == Returns(TestResult(Freshness, true, Fresh))
    ensures FreshnessCheck([v], t + DAY_MS + 1, dateOf) == Returns(TestResult(Freshness, false, Stale))
  {
    assert NewestDate([v], dateOf) == ValidDate(t);
  }

  // ---------------------------------------------------------------- consistency

  /** The set of `a.data` values of some records. */
  function Areas(records: seq<Json>): set<Prop>
    requires JNull !in records
  {
    set v | v in records :: Get(v, "data")
  }

  /** `testCrossSourceConsistency`: fails only when both sources are empty; otherwise
      it counts the areas the first 200 records of each have in common, for the message. */
  function ConsistencyCheck(fullHistory: seq<Json>, rangeHistory: seq<Json>): Completion<TestResult> {
    if fullHistory == [] && rangeHistory == [] then Returns(TestResult(Consistency, false, BothSourcesEmpty))
    else if fullHistory == [] || rangeHistory == [] then Returns(TestResult(Consistency, true, OneSourceOnly))
    else
      var fullSample := fullHistory[..SampleSize(fullHistory, OVERLAP_SAMPLE)];
      var rangeSample := rangeHistory[..SampleSize(rangeHistory, OVERLAP_SAMPLE)];
      if JNull in fullSample || JNull in rangeSample then Throws
      else
        var common := Areas(fullSample) * Areas(rangeSample);
        if common == {} then Returns(TestResult(Consistency, true, NoOverlap))
        else Returns(TestResult(Consistency, true, CommonAreas(|common|)))
  }

  /** The consistency check fails exactly when both sources are empty, and it throws only
      on a `null` among the first 200 records of a source. */
  lemma ConsistencyFailsOnlyWhenBothEmpty(fullHistory: seq<Json>, rangeHistory: seq<Json>)
    ensures ConsistencyCheck(fullHistory, rangeHistory).Returns? ==>
      (!ConsistencyCheck(fullHistory, rangeHistory).value.passed <==> fullHistory == [] && rangeHistory == [])
    ensures ConsistencyCheck(fullHistory, rangeHistory).Throws? ==>
      (exists i :: 0 <= i < SampleSize(fullHistory, OVERLAP_SAMPLE) && fullHistory[i] == JNull)
      || (exists i :: 0 <= i < SampleSize(rangeHistory, OVERLAP_SAMPLE) && rangeHistory[i] == JNull)
  {
    if ConsistencyCheck(fullHistory, rangeHistory).Throws? {
      var fullSample := fullHistory[..SampleSize(fullHistory, OVERLAP_SAMPLE)];
      var rangeSample := rangeHistory[..SampleSize(rangeHistory, OVERLAP_SAMPLE)];
      if JNull in fullSample {
        var i :| 0 <= i < |fullSample| && fullSample[i] == JNull;
        assert fullHistory[i] == JNull;
      } else {
        var i :| 0 <= i < |rangeSample| && rangeSample[i] == JNull;
        assert rangeHistory[i] == JNull;
      }
    }
  }

  /** With both sources present and no area in common the check still passes. */
  lemma NoOverlapPasses(a: Json, b: Json)
    requires a != JNull && b != JNull && Get(a, "data") != Get(b, "data")
    ensures ConsistencyCheck([a], [b]) == Returns(TestResult(Consistency, true, NoOverlap))
  {
    assert [a][..SampleSize([a], OVERLAP_SAMPLE)] == [a];
    assert [b][..SampleSize([b], OVERLAP_SAMPLE)] == [b];
    assert Areas([a]) == {Get(a, "data")};
    assert Areas([b]) == {Get(b, "data")};
  }

  // ---------------------------------------------------------------- the report

  /** `IntegrityReport` without its timestamp. */
  datatype Report = Report(passed: bool, results: seq<TestResult>)

  /** How `runIntegrityChecks` ends: with a report, or rejected when a check throws. */
  datatype RunOutcome = Rejected | Completed(report: Report)

  /** What `runIntegrityChecks` computes from the three responses, the clock and the date
      parser: the seven results in order, and `passed` from the first two. */
  function IntegrityRun(alertsRes: Response, historyRes: Response, rangeRes: Response,
                        now: int, dateOf: Prop -> DateValue): RunOutcome
  {
    var alerts := TestAlertsEndpoint(alertsRes);
    var history := TestHistoryEndpoint(historyRes);
    var range := TestHistoryRangeEndpoint(rangeRes);
    var structure := StructureCheck(history.data);
    var categories := CategoriesCheck(history.data);
    var freshness := FreshnessCheck(history.data, now, dateOf);
    var consistency := ConsistencyCheck(history.data, range.data);
    if structure.Throws? || categories.Throws? || freshness.Throws? || consistency.Throws? then Rejected
    else
      Completed(Report(alerts.passed && history.result.passed,
        [alerts, history.result, range.result, structure.value, categories.value, freshness.value, consistency.value]))
  }

  /** `runIntegrityChecks`: pushes the results one by one into `results`; a check that
      throws rejects the whole run. */
  method RunIntegrityChecks(alertsRes: Response, historyRes: Response, rangeRes: Response,
                            now: int, dateOf: Prop -> DateValue) returns (outcome: RunOutcome)
    ensures outcome == IntegrityRun(alertsRes, historyRes, rangeRes, now, dateOf)
  {
    var results: seq<TestResult> := [];
    var alertsResult := TestAlertsEndpoint(alertsRes);
    var historyResult := TestHistoryEndpoint(historyRes);
    var rangeResult := TestHistoryRangeEndpoint(rangeRes);
    results := results + [alertsResult];
    results := results + [historyResult.result];
    results := results + [rangeResult.result];
    var structure := TestAlertStructure(historyResult.data);
    if structure.Throws? {
      return Rejected;
    }
    results := results + [structure.value];
    var categories := CategoriesCheck(historyResult.data);
    if categories.Throws? {
      return Rejected;
    }
    results := results + [categories.value];
    var freshness := FreshnessCheck(historyResult.data, now, dateOf);
    if freshness.Throws? {
      return Rejected;
    }
    results := results + [freshness.value];
    var consistency := ConsistencyCheck(historyResult.data, rangeResult.data);
    if consistency.Throws? {
      return Rejected;
    }
    results := results + [consistency.value];
    var passed := alertsResult.passed && historyResult.result.passed;
    outcome := Completed(Report(passed, results));
  }

  /** A report holds seven results in the fixed order, and `passed` is the conjunction of
      the first two: the other five never affect it. */
  lemma ReportShape(alertsRes: Response, historyRes: Response, rangeRes: Response,
                    now: int, dateOf: Prop -> DateValue)
    ensures var run := IntegrityRun(alertsRes, historyRes, rangeRes, now, dateOf);
      run.Completed? ==>
        && |run.report.results| == 7
        && (forall i :: 0 <= i < 7 ==>
              (run.report.results[i].name ==
                [AlertsEndpoint, HistoryEndpoint, RangeEndpoint, Structure, Categories, Freshness, Consistency][i]))
        && (run.report.passed <==> run.report.results[0].passed && run.report.results[1].passed)
  {
    var run := IntegrityRun(alertsRes, historyRes, rangeRes, now, dateOf);
    if run.Completed? {
      var history := TestHistoryEndpoint(historyRes);
      StructureName(history.data);
      CategoriesName(history.data);
      FreshnessName(history.data, now, dateOf);
      ConsistencyName(history.data, TestHistoryRangeEndpoint(rangeRes).data);
    }
  }

  lemma StructureName(data: seq<Json>)
    ensures StructureCheck(data).Returns? ==> StructureCheck(data).value.name == Structure
  {
  }

  lemma CategoriesName(data: seq<Json>)
    ensures CategoriesCheck(data).Returns? ==> CategoriesCheck(data).value.name == Categories
  {
  }

  lemma FreshnessName(data: seq<Json>, now: int, dateOf: Prop -> DateValue)
    ensures FreshnessCheck(data, now, dateOf).Returns? ==> FreshnessCheck(data, now, dateOf).value.name == Freshness
  {
  }

  lemma ConsistencyName(fullHistory: seq<Json>, rangeHistory: seq<Json>)
    ensures ConsistencyCheck(fullHistory, rangeHistory).Returns? ==>
      ConsistencyCheck(fullHistory, rangeHistory).value.name == Consistency
  {
  }

  /** The verdict depends on the live feed and the full history alone: the range feed,
      the clock and the date parser change at most the advisory results. */
  lemma VerdictFromCriticalChecks(alertsRes: Response, historyRes: Response, rangeRes: Response,
                                  now: int, dateOf: Prop -> DateValue)
    ensures var run := IntegrityRun(alertsRes, historyRes, rangeRes, now, dateOf);
      run.Completed? ==>
        (run.report.passed <==> TestAlertsEndpoint(alertsRes).passed && TestHistoryEndpoint(historyRes).result.passed)
  {
  }

  /** A failed full-history test never throws later on: the run completes and fails. */
  lemma HistoryFailureFailsRun(alertsRes: Response, historyRes: Response, rangeRes: Response,
                               now: int, dateOf: Prop -> DateValue)
    requires !TestHistoryEndpoint(historyRes).result.passed
    ensures var run := IntegrityRun(alertsRes, historyRes, rangeRes, now, dateOf);
      run.Completed? && !run.report.passed
  {
    var range := TestHistoryRangeEndpoint(rangeRes);
    if range.data != [] {
      assert ConsistencyCheck([], range.data).Returns?;
    }
  }

  /** A run rejects only when a history feed holds a `null` record. */
  lemma RejectedOnlyOnNull(alertsRes: Response, historyRes: Response, rangeRes: Response,
                           now: int, dateOf: Prop -> DateValue)
    ensures IntegrityRun(alertsRes, historyRes, rangeRes, now, dateOf).Rejected? ==>
      JNull in TestHistoryEndpoint(historyRes).data || JNull in TestHistoryRangeEndpoint(rangeRes).data
  {
    var history := TestHistoryEndpoint(historyRes);
    var range := TestHistoryRangeEndpoint(rangeRes);
    if IntegrityRun(alertsRes, historyRes, rangeRes, now, dateOf).Rejected? && history.data != [] {
      var sample := history.data[..SampleSize(history.data, STRUCTURE_SAMPLE)];
      if ScanStructure(sample).Throws? {
        var i :| FirstBadIsNull(sample, i);
        assert history.data[i] == JNull;
      }
      if range.data != [] {
        var fullSample := history.data[..SampleSize(history.data, OVERLAP_SAMPLE)];
        var rangeSample := range.data[..SampleSize(range.data, OVERLAP_SAMPLE)];
        if JNull in fullSample {
          var i :| 0 <= i < |fullSample| && fullSample[i] == JNull;
          assert history.data[i] == JNull;
        }
        if JNull in rangeSample {
          var i :| 0 <= i < |rangeSample| && rangeSample[i] == JNull;
          assert range.data[i] == JNull;
        }
      }
    }
  }

  /** A healthy live feed with an empty full history still fails the run. */
  lemma EmptyHistoryFailsRun(now: int, dateOf: Prop -> DateValue)
    ensures var run := IntegrityRun(Http(true, 200, "", None), Http(true, 200, "[]", Some(JArr([]))),
                                    Http(true, 200, "", None), now, dateOf);
      run.Completed? && run.report.results[0].passed && !run.report.results[1].passed && !run.report.passed
  {
    assert !IsBlank("[]") by {
      assert !IsJsSpace("[]"[0]);
    }
    assert IsBlank("");
  }
}
