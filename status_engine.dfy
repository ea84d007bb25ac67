/** The city timeline and the five-way status classification of src/api.ts, and the
    `dd.mm.yyyy` date parameter it sends to the range feed. `Date.now()` is the
    parameter `now` and every record's `time` is its parsed `alertDate`. */
module StatusEngine {
  import opened Wrappers
  import opened Text
  import opened Sequences
  import opened Types
  import opened CityMatch
  import opened HistoryMerge

  /** Seconds after a danger alert during which people are still running to shelter. */
  const SHELTER_RUN_SECONDS := 90
  /** The phrase ("stay near") that qualifies an all-clear as "stay near a shelter". */
  const STAY_NEAR_SHELTER_PHRASE := "להישאר בקרבת"
  const HOUR_MS := 60 * 60 * 1000
  /** The default window of `buildCityTimeline`, also `HOURS_BACK` of src/useAlerts.ts. */
  const HOURS_BACK := 6

  // ---------------------------------------------------------------- the timeline

  /** `buildCityTimeline`: the merged records of the city no older than `hoursBack` hours. */
  function BuildCityTimeline(fullHistory: seq<HistoryAlert>, rangeHistory: seq<HistoryAlert>,
                             cityName: string, now: int, hoursBack: int): (r: seq<HistoryAlert>)
    ensures forall a :: a in r <==>
      a in Merged(fullHistory, rangeHistory) && CityMatches(a.data, cityName)
      && a.time >= now - hoursBack * HOUR_MS
    ensures IsSubsequence(r, Merged(fullHistory, rangeHistory))
  {
    var merged := Merged(fullHistory, rangeHistory);
    var cityAlerts := FilterCityHistory(merged, cityName);
    var cutoff := now - hoursBack * HOUR_MS;
    var r := Filter(cityAlerts, (a: HistoryAlert) => a.time >= cutoff);
    SubsequenceTransitive(r, cityAlerts, merged);
    r
  }

  /** The timeline keeps the merged order: newest first, one record per key. */
  lemma TimelineSortedAndDistinct(fullHistory: seq<HistoryAlert>, rangeHistory: seq<HistoryAlert>,
                                  cityName: string, now: int, hoursBack: int)
    ensures NewestFirst(BuildCityTimeline(fullHistory, rangeHistory, cityName, now, hoursBack))
    ensures NoDuplicateKeys(BuildCityTimeline(fullHistory, rangeHistory, cityName, now, hoursBack))
  {
    var merged := Merged(fullHistory, rangeHistory);
    var r := BuildCityTimeline(fullHistory, rangeHistory, cityName, now, hoursBack);
    MergedSortedAndDistinct(fullHistory, rangeHistory);
    SubsequenceNewestFirst(r, merged);
    SubsequenceKeysDistinct(r, merged);
  }

  /** A record exactly `hoursBack` hours old is still on the timeline. */
  lemma TimelineCutoffInclusive(fullHistory: seq<HistoryAlert>, rangeHistory: seq<HistoryAlert>,
                                cityName: string, now: int, hoursBack: int, a: HistoryAlert)
    requires a in Merged(fullHistory, rangeHistory) && CityMatches(a.data, cityName)
    requires a.time == now - hoursBack * HOUR_MS
    ensures a in BuildCityTimeline(fullHistory, rangeHistory, cityName, now, hoursBack)
  {
  }

  // ---------------------------------------------------------------- classification

  /** `{ status, lastAlert }` of `determineStatusFromData`. */
  datatype StatusResult = StatusResult(status: AlertStatus, lastAlert: Option<HistoryAlert>)

  /** `latest.title || latest.category_desc || ''`: an empty title falls through. */
  function TitleText(a: HistoryAlert): string {
    if a.title.Some? && a.title.value != "" then a.title.value
    else if a.categoryDesc.Some? then a.categoryDesc.value
    else ""
  }

  /** The all-clear text asks people to stay near a shelter. */
  predicate StayNearShelter(a: HistoryAlert) {
    Contains(TitleText(a), STAY_NEAR_SHELTER_PHRASE)
  }

  /** The danger window: `(now - time) / 1000 < SHELTER_RUN_SECONDS`, in whole milliseconds. */
  predicate WithinShelterRun(a: HistoryAlert, now: int) {
    now - a.time < SHELTER_RUN_SECONDS * 1000
  }

  /** The status a newest city record implies; it is always reported as `lastAlert`. */
  function ClassifyLatest(latest: HistoryAlert, now: int): (r: StatusResult)
    ensures r.lastAlert == Some(latest)
    ensures r.status == GoToShelter <==> latest.category in DANGER_CATEGORIES && WithinShelterRun(latest, now)
    ensures r.status == InShelter <==> latest.category in DANGER_CATEGORIES && !WithinShelterRun(latest, now)
    ensures r.status == NearShelter <==> latest.category == END && StayNearShelter(latest)
    ensures r.status == PreAlert <==> latest.category == PRE_ALERT
  {
    DangerCategories();
    if latest.category in DANGER_CATEGORIES then
      if WithinShelterRun(latest, now) then StatusResult(GoToShelter, Some(latest))
      else StatusResult(InShelter, Some(latest))
    else if latest.category == END then
      if StayNearShelter(latest) then StatusResult(NearShelter, Some(latest))
      else StatusResult(Safe, Some(latest))
    else if latest.category == PRE_ALERT then StatusResult(PreAlert, Some(latest))
    else StatusResult(Safe, Some(latest))
  }

  /** The merged records of the city, newest first. */
  function CityRecords(fullHistory: seq<HistoryAlert>, rangeHistory: seq<HistoryAlert>, cityName: string): seq<HistoryAlert> {
    FilterCityHistory(Merged(fullHistory, rangeHistory), cityName)
  }

  /** `determineStatusFromData`: an empty city is safe, a live alert sends the city to
      shelter, and otherwise the newest merged record of the city decides. */
  function DetermineStatusFromData(activeAlerts: seq<OrefAlert>, fullHistory: seq<HistoryAlert>,
                                   rangeHistory: seq<HistoryAlert>, cityName: string, now: int): (r: StatusResult)
    ensures cityName == "" ==> r == StatusResult(Safe, None)
    ensures cityName != "" && IsCityInActiveAlerts(activeAlerts, cityName) ==> r == StatusResult(GoToShelter, None)
    ensures cityName != "" && !IsCityInActiveAlerts(activeAlerts, cityName) && !HasCityRecord(fullHistory + rangeHistory, cityName)
      ==> r == StatusResult(Safe, None)
    ensures r.lastAlert.Some? ==>
      r.lastAlert.value in Merged(fullHistory, rangeHistory) && CityMatches(r.lastAlert.value.data, cityName)
    ensures r.lastAlert.Some? ==> r == ClassifyLatest(r.lastAlert.value, now)
  {
    CityRecordsNonEmpty(fullHistory, rangeHistory, cityName);
    if cityName == "" then StatusResult(Safe, None)
    else if IsCityInActiveAlerts(activeAlerts, cityName) then StatusResult(GoToShelter, None)
    else
      var cityAlerts := CityRecords(fullHistory, rangeHistory, cityName);
      if cityAlerts == [] then StatusResult(Safe, None)
      else ClassifyLatest(cityAlerts[0], now)
  }

  /** Some record of either feed names the city. */
  predicate HasCityRecord(records: seq<HistoryAlert>, cityName: string) {
    exists a :: a in records && CityMatches(a.data, cityName)
  }

  /** Merging loses no city: the merged list names the city iff one of the feeds does. */
  lemma CityRecordsNonEmpty(fullHistory: seq<HistoryAlert>, rangeHistory: seq<HistoryAlert>, cityName: string)
    ensures CityRecords(fullHistory, rangeHistory, cityName) != [] <==> HasCityRecord(fullHistory + rangeHistory, cityName)
  {
    var all := fullHistory + rangeHistory;
    var merged := Merged(fullHistory, rangeHistory);
    var records := CityRecords(fullHistory, rangeHistory, cityName);
    MergedRecords(fullHistory, rangeHistory);
    if records != [] {
      assert records[0] in records;
      assert records[0] in all;
    }
    if HasCityRecord(all, cityName) {
      var b :| b in all && CityMatches(b.data, cityName);
      var m := MergedTwin(fullHistory, rangeHistory, b);
      assert m in records;
    }
  }

  /** Every record of the feeds has a merged record with its key. */
  lemma MergedTwin(fullHistory: seq<HistoryAlert>, rangeHistory: seq<HistoryAlert>, b: HistoryAlert)
    returns (m: HistoryAlert)
    requires b in fullHistory + rangeHistory
    ensures m in Merged(fullHistory, rangeHistory) && Key(m) == Key(b)
  {
    KeysOfMembers(fullHistory + rangeHistory);
    KeysAppend(fullHistory, rangeHistory);
    MergedKeys(fullHistory, rangeHistory);
    KeysOfMembers(Merged(fullHistory, rangeHistory));
    m :| m in Merged(fullHistory, rangeHistory) && Key(m) == Key(b);
  }

  /** No `lastAlert` exactly when the city is empty, is under a live alert, or has no record. */
  lemma StatusWithoutLastAlert(activeAlerts: seq<OrefAlert>, fullHistory: seq<HistoryAlert>,
                               rangeHistory: seq<HistoryAlert>, cityName: string, now: int)
    ensures DetermineStatusFromData(activeAlerts, fullHistory, rangeHistory, cityName, now).lastAlert.None? <==>
      cityName == "" || IsCityInActiveAlerts(activeAlerts, cityName)
      || !HasCityRecord(fullHistory + rangeHistory, cityName)
  {
    CityRecordsNonEmpty(fullHistory, rangeHistory, cityName);
  }

  /** `time` is a function of `alertDate`, as it is when both come from one date string. */
  predicate ConsistentTimes(records: seq<HistoryAlert>) {
    forall a, b :: a in records && b in records && a.alertDate == b.alertDate ==> a.time == b.time
  }

  /** The reported `lastAlert` is a newest record of the city among both feeds. */
  lemma LastAlertIsNewest(activeAlerts: seq<OrefAlert>, fullHistory: seq<HistoryAlert>,
                          rangeHistory: seq<HistoryAlert>, cityName: string, now: int)
    requires ConsistentTimes(fullHistory + rangeHistory)
    ensures var r := DetermineStatusFromData(activeAlerts, fullHistory, rangeHistory, cityName, now);
      r.lastAlert.Some? ==>
        && r.lastAlert.value in fullHistory + rangeHistory
        && CityMatches(r.lastAlert.value.data, cityName)
        && forall b :: b in fullHistory + rangeHistory && CityMatches(b.data, cityName) ==> b.time <= r.lastAlert.value.time
  {
    var r := DetermineStatusFromData(activeAlerts, fullHistory, rangeHistory, cityName, now);
    if r.lastAlert.Some? {
      var all := fullHistory + rangeHistory;
      var merged := Merged(fullHistory, rangeHistory);
      var records := CityRecords(fullHistory, rangeHistory, cityName);
      var latest := records[0];
      MergedRecords(fullHistory, rangeHistory);
      MergedSortedAndDistinct(fullHistory, rangeHistory);
      SubsequenceNewestFirst(records, merged);
      NewestFirstHead(records);
      forall b | b in all && CityMatches(b.data, cityName) ensures b.time <= latest.time {
        var m := MergedTwin(fullHistory, rangeHistory, b);
        assert m in records;
        assert m == latest || m in records[1..];
      }
    }
  }

  /** Outside a live alert the city must go to shelter exactly while its newest record is
      a danger alert less than 90 seconds old. */
  lemma GoToShelterFromHistory(activeAlerts: seq<OrefAlert>, fullHistory: seq<HistoryAlert>,
                               rangeHistory: seq<HistoryAlert>, cityName: string, now: int)
    requires cityName != "" && !IsCityInActiveAlerts(activeAlerts, cityName)
    ensures var r := DetermineStatusFromData(activeAlerts, fullHistory, rangeHistory, cityName, now);
      r.status == GoToShelter <==>
        r.lastAlert.Some? && r.lastAlert.value.category in DANGER_CATEGORIES && WithinShelterRun(r.lastAlert.value, now)
  {
  }

  /** At exactly 90 seconds a danger alert is no longer "go to shelter" but "in shelter". */
  lemma ShelterRunBoundary(latest: HistoryAlert)
    requires latest.category in DANGER_CATEGORIES
    ensures ClassifyLatest(latest, latest.time + 89999).status == GoToShelter
    ensures ClassifyLatest(latest, latest.time + 90000).status == InShelter
    ensures ClassifyLatest(latest, latest.time + 90001).status == InShelter
  {
  }

  /** A city under a live alert goes to shelter whatever its history says. */
  lemma ScenarioLiveAlert(fullHistory: seq<HistoryAlert>, rangeHistory: seq<HistoryAlert>, now: int)
    ensures var active := [OrefAlert("1", Some(["Tel Aviv - Center"]), "", "")];
      DetermineStatusFromData(active, fullHistory, rangeHistory, "Tel Aviv - Center", now)
        == StatusResult(GoToShelter, None)
  {
    var active := [OrefAlert("1", Some(["Tel Aviv - Center"]), "", "")];
    EmptyAreaAndOwnNameMatch("Tel Aviv - Center");
    assert AlertNamesCity(active[0], "Tel Aviv - Center") by {
      assert "Tel Aviv - Center" in active[0].data.value;
    }
  }

  /** A missile alert 200 seconds old leaves the city in shelter. */
  lemma ScenarioInShelter(t: int)
    ensures var missile := HistoryAlert("d", t, "X", MISSILES, None, None, None, None);
      DetermineStatusFromData([], [missile], [], "X", t + 200000)
        == StatusResult(InShelter, Some(missile))
  {
    var missile := HistoryAlert("d", t, "X", MISSILES, None, None, None, None);
    SingleRecordCity(missile, "X");
    DangerCategories();
  }

  /** An all-clear asking to stay near a shelter gives "near shelter". */
  lemma ScenarioStayNear(t: int, now: int)
    ensures var near := HistoryAlert("d", t, "X", END, None, Some(STAY_NEAR_SHELTER_PHRASE + "ו"), None, None);
      DetermineStatusFromData([], [near], [], "X", now) == StatusResult(NearShelter, Some(near))
  {
    var near := HistoryAlert("d", t, "X", END, None, Some(STAY_NEAR_SHELTER_PHRASE + "ו"), None, None);
    SingleRecordCity(near, "X");
    DangerCategories();
    assert IsPrefix(STAY_NEAR_SHELTER_PHRASE, TitleText(near)[0..]);
    ContainsAt(TitleText(near), STAY_NEAR_SHELTER_PHRASE, 0);
  }

  /** With an empty title the description is read instead: the phrase there also gives
      "near shelter". */
  lemma ScenarioStayNearFromDescription(t: int, now: int)
    ensures var near := HistoryAlert("d", t, "X", END, Some(STAY_NEAR_SHELTER_PHRASE), Some(""), None, None);
      DetermineStatusFromData([], [near], [], "X", now) == StatusResult(NearShelter, Some(near))
  {
    var near := HistoryAlert("d", t, "X", END, Some(STAY_NEAR_SHELTER_PHRASE), Some(""), None, None);
    SingleRecordCity(near, "X");
    DangerCategories();
    assert TitleText(near) == STAY_NEAR_SHELTER_PHRASE;
    assert IsPrefix(STAY_NEAR_SHELTER_PHRASE, TitleText(near)[0..]);
    ContainsAt(TitleText(near), STAY_NEAR_SHELTER_PHRASE, 0);
  }

  /** The same all-clear without the phrase gives "safe", still reporting the record. */
  lemma ScenarioAllClear(t: int, now: int)
    ensures var clear := HistoryAlert("d", t, "X", END, None, Some("האירוע הסתיים"), None, None);
      DetermineStatusFromData([], [clear], [], "X", now) == StatusResult(Safe, Some(clear))
  {
    var clear := HistoryAlert("d", t, "X", END, None, Some("האירוע הסתיים"), None, None);
    SingleRecordCity(clear, "X");
    DangerCategories();
    NoStayNearPhrase(TitleText(clear));
  }

  /** A lone record of the city is its newest record. */
  lemma SingleRecordCity(a: HistoryAlert, cityName: string)
    requires a.data == cityName && cityName != GIVATAYIM
    ensures CityRecords([a], [], cityName) == [a]
  {
    assert [a] + [] == [a];
    DedupStep(a, [], {});
    assert Dedup([a], {}) == [a];
    assert SortNewestFirst([a]) == [a] by {
      assert [a][1..] == [];
    }
    EmptyAreaAndOwnNameMatch(cityName);
    var records := CityRecords([a], [], cityName);
    SubsequenceMembers(records, [a]);
    assert a in records;
  }

  /** A text with no `ל` cannot hold the phrase. */
  lemma NoStayNearPhrase(s: string)
    requires 'ל' !in s
    ensures !Contains(s, STAY_NEAR_SHELTER_PHRASE)
  {
    var p := STAY_NEAR_SHELTER_PHRASE;
    forall i | 0 <= i <= |s| ensures !IsPrefix(p, s[i..]) {
      if |p| <= |s| - i {
        assert s[i..][..|p|][0] == s[i];
        assert s[i] in s;
      }
    }
    NotContains(s, p);
  }

  // ---------------------------------------------------------------- the date parameter

  /** `formatDateParam`: `dd.mm.yyyy` from the day of the month, the 0-based month and the
      year of a date, the first two padded to two digits. */
  function FormatDateParam(day: int, month0: int, year: int): (r: string)
    requires 1 <= day <= 31 && 0 <= month0 <= 11
    ensures |r| >= 7 && r[2] == '.' && r[5] == '.' && r[6..] == IntToString(year)
  {
    OneOrTwoDigits(day);
    OneOrTwoDigits(month0 + 1);
    DottedFields(PadStart2(NatToString(day)), PadStart2(NatToString(month0 + 1)), IntToString(year));
    PadStart2(NatToString(day)) + "." + PadStart2(NatToString(month0 + 1)) + "." + IntToString(year)
  }

  /** Reading the three digit groups back gives the date's day, month and year. */
  lemma FormatDateParamFields(day: int, month0: int, year: int)
    requires 1 <= day <= 31 && 0 <= month0 <= 11 && 1000 <= year <= 9999
    ensures var r := FormatDateParam(day, month0, year);
      && |r| == 10
      && AllDigits(r[0..2]) && AllDigits(r[3..5]) && AllDigits(r[6..10])
      && DecimalValue(r[0..2]) == day
      && DecimalValue(r[3..5]) == month0 + 1
      && DecimalValue(r[6..10]) == year
  {
    var d := NatToString(day);
    var m := NatToString(month0 + 1);
    OneOrTwoDigits(day);
    OneOrTwoDigits(month0 + 1);
    NatToStringLength(year, 4);
    var r := FormatDateParam(day, month0, year);
    DottedFields(PadStart2(d), PadStart2(m), NatToString(year));
    assert r == PadStart2(d) + "." + PadStart2(m) + "." + NatToString(year);
    assert r[6..10] == r[6..];
    PaddedValue(d);
    PaddedValue(m);
  }

  /** A day or a month prints as one or two digits, padded to two. */
  lemma OneOrTwoDigits(n: nat)
    requires 1 <= n <= 99
    ensures 1 <= |NatToString(n)| <= 2 && |PadStart2(NatToString(n))| == 2
  {
    if n < 10 {
      NatToStringLength(n, 1);
    } else {
      NatToStringLength(n, 2);
    }
  }

  /** The fields of `a.b.c` for two-character `a` and `b`. */
  lemma DottedFields(a: string, b: string, c: string)
    requires |a| == 2 && |b| == 2
    ensures var r := a + "." + b + "." + c;
      && |r| == 6 + |c| && r[2] == '.' && r[5] == '.'
      && r[0..2] == a && r[3..5] == b && r[6..] == c
  {
    var r := a + "." + b + "." + c;
    assert r[0..2] == a;
    assert r[3..5] == b;
    assert r[6..] == c;
  }

  /** Padding one or two digits to two keeps their value. */
  lemma PaddedValue(s: string)
    requires AllDigits(s) && 1 <= |s| <= 2
    ensures AllDigits(PadStart2(s)) && DecimalValue(PadStart2(s)) == DecimalValue(s)
  {
    if |s| == 1 {
      LeadingZero(s);
    }
  }
}
