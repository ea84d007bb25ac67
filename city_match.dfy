/** Area matching of src/api.ts: the alias table of a city and the substring test that
    decides whether an area name of the provider refers to it. */
module CityMatch {
  import opened Wrappers
  import opened Text
  import opened Sequences
  import opened Types

  const GIVATAYIM := "גבעתיים"
  const GIVATAYIM_EAST := "גבעתיים - מזרח"
  const GIVATAYIM_WEST := "גבעתיים - מערב"
  /** `GIVATAYIM_NAMES`: the names under which the provider records Givatayim. */
  const GIVATAYIM_NAMES: seq<string> := [GIVATAYIM, GIVATAYIM_EAST, GIVATAYIM_WEST]

  /** `getCityNames`: the alias list of a city; every alias contains the city's own name. */
  function GetCityNames(cityName: string): (names: seq<string>)
    ensures |names| >= 1 && names[0] == cityName
    ensures forall n :: n in names ==> Contains(n, cityName)
    ensures cityName != GIVATAYIM ==> names == [cityName]
  {
    if cityName == GIVATAYIM then
      assert IsPrefix(GIVATAYIM, GIVATAYIM_EAST) && IsPrefix(GIVATAYIM, GIVATAYIM_WEST);
      ContainsSelf(GIVATAYIM);
      GIVATAYIM_NAMES
    else
      ContainsSelf(cityName);
      [cityName]
  }

  /** Either string contains the other. */
  predicate NameMatches(area: string, name: string) {
    Contains(area, name) || Contains(name, area)
  }

  /** `cityMatches`: some alias of the city and the record's area contain one another. */
  predicate CityMatches(alertData: string, cityName: string) {
    exists n :: n in GetCityNames(cityName) && NameMatches(alertData, n)
  }

  /** An empty area string matches every city, and every city matches its own name. */
  lemma EmptyAreaAndOwnNameMatch(cityName: string)
    ensures CityMatches("", cityName)
    ensures CityMatches(cityName, cityName)
  {
    var names := GetCityNames(cityName);
    assert names[0] == cityName;
    ContainsEmpty(cityName);
    assert NameMatches("", names[0]);
    ContainsSelf(cityName);
    assert NameMatches(cityName, names[0]);
  }

  /** A city other than Givatayim matches exactly the areas that contain it or that it contains. */
  lemma OtherCityMatching(area: string, cityName: string)
    requires cityName != GIVATAYIM
    ensures CityMatches(area, cityName) <==> NameMatches(area, cityName)
  {
    assert GetCityNames(cityName) == [cityName];
  }

  /** The alias table widens Givatayim to the areas that contain its name and to every
      piece of its two district names. */
  lemma GivatayimMatching(area: string)
    ensures CityMatches(area, GIVATAYIM) <==>
      Contains(area, GIVATAYIM) || Contains(GIVATAYIM_EAST, area) || Contains(GIVATAYIM_WEST, area)
  {
    assert GetCityNames(GIVATAYIM) == [GIVATAYIM, GIVATAYIM_EAST, GIVATAYIM_WEST];
    DistrictsContainGivatayim();
    DistrictCityMatching(area, GIVATAYIM, GIVATAYIM_EAST, GIVATAYIM_WEST);
  }

  /** A city whose aliases are its name and two district names that contain it. */
  lemma DistrictCityMatching(area: string, g: string, east: string, west: string)
    requires GetCityNames(g) == [g, east, west]
    requires Contains(east, g) && Contains(west, g)
    ensures CityMatches(area, g) <==> Contains(area, g) || Contains(east, area) || Contains(west, area)
  {
    if CityMatches(area, g) {
      var n :| n in GetCityNames(g) && NameMatches(area, n);
      DistrictAliasMatch(area, n, g, east, west);
    }
    if Contains(area, g) || Contains(east, area) || Contains(west, area) {
      DistrictCityMatched(area, g, east, west);
    }
  }

  lemma DistrictCityMatched(area: string, g: string, east: string, west: string)
    requires GetCityNames(g) == [g, east, west]
    requires Contains(area, g) || Contains(east, area) || Contains(west, area)
    ensures CityMatches(area, g)
  {
    var names := GetCityNames(g);
    var n := if Contains(area, g) then g else if Contains(east, area) then east else west;
    assert n in names && NameMatches(area, n);
  }

  /** Both district names contain the plain name. */
  lemma DistrictsContainGivatayim()
    ensures Contains(GIVATAYIM_EAST, GIVATAYIM) && Contains(GIVATAYIM_WEST, GIVATAYIM)
  {
    assert IsPrefix(GIVATAYIM, GIVATAYIM_EAST);
    assert IsPrefix(GIVATAYIM, GIVATAYIM_WEST);
  }

  /** An area that matches an alias containing `name` either contains `name` or lies within the alias. */
  lemma AliasMatch(area: string, alias: string, name: string)
    requires Contains(alias, name) && NameMatches(area, alias)
    ensures Contains(area, name) || Contains(alias, area)
  {
    if Contains(area, alias) {
      ContainsTransitive(area, alias, name);
    }
  }

  /** With a base name `g` and two district names that contain it, an area matching any of
      the three contains `g` or lies within a district name. */
  lemma DistrictAliasMatch(area: string, n: string, g: string, east: string, west: string)
    requires n == g || n == east || n == west
    requires Contains(east, g) && Contains(west, g) && NameMatches(area, n)
    ensures Contains(area, g) || Contains(east, area) || Contains(west, area)
  {
    ContainsSelf(g);
    AliasMatch(area, n, g);
    if n == g && Contains(g, area) {
      ContainsTransitive(east, g, area);
    }
  }

  /** `alert.data.some(...)`: some listed area matches the city. */
  function AnyAreaMatches(areas: seq<string>, cityName: string): (r: bool)
    ensures r <==> exists area :: area in areas && CityMatches(area, cityName)
    decreases |areas|
  {
    if areas == [] then false
    else CityMatches(areas[0], cityName) || AnyAreaMatches(areas[1..], cityName)
  }

  /** The alert carries an area list and some area on it matches the city. */
  predicate AlertNamesCity(alert: OrefAlert, cityName: string) {
    alert.data.Some? && exists area :: area in alert.data.value && CityMatches(area, cityName)
  }

  /** `isCityInActiveAlerts`: some alert that carries an area list names the city.
      Alerts without a `data` list are skipped. */
  function IsCityInActiveAlerts(alerts: seq<OrefAlert>, cityName: string): (r: bool)
    ensures r <==> exists i :: 0 <= i < |alerts| && AlertNamesCity(alerts[i], cityName)
    decreases |alerts|
  {
    if alerts == [] then false
    else
      var here := alerts[0].data.Some? && AnyAreaMatches(alerts[0].data.value, cityName);
      var rest := IsCityInActiveAlerts(alerts[1..], cityName);
      assert forall i :: 1 <= i < |alerts| ==> alerts[1..][i - 1] == alerts[i];
      here || rest
  }

  /** `filterCityHistory`: the records of the city, in their original order. */
  function FilterCityHistory(history: seq<HistoryAlert>, cityName: string): (r: seq<HistoryAlert>)
    ensures forall a :: a in r <==> a in history && CityMatches(a.data, cityName)
    ensures IsSubsequence(r, history)
  {
    Filter(history, (a: HistoryAlert) => CityMatches(a.data, cityName))
  }
}
