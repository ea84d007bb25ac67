/** The city autocomplete box `CitySearch` (src/CitySearch.tsx): the suggestion list
    derived from the query, and the query, open flag and keyboard highlight that its event
    handlers update. */
module CitySearchBox {
  import opened Text
  import opened Sequences

  /** At most this many suggestions are listed. */
  const MAX_SUGGESTIONS := 20

  predicate NamesQuery(query: string, city: string) {
    Contains(city, query)
  }

  /** Every city containing the query, in list order. */
  function Matches(cities: seq<string>, query: string): seq<string> {
    Filter(cities, c => NamesQuery(query, c))
  }

  /** `filtered`: nothing for an empty query, else the first twenty matches. */
  function Filtered(cities: seq<string>, query: string): seq<string> {
    if query == "" then []
    else
      var all := Matches(cities, query);
      if |all| <= MAX_SUGGESTIONS then all else all[..MAX_SUGGESTIONS]
  }

  /** The suggestions are the leading matches: cities of the list, in its order, each
      containing the query: all the matches when there are no more than twenty, else
      exactly the first twenty. */
  lemma FilteredIsLeadingMatches(cities: seq<string>, query: string)
    ensures query == "" ==> Filtered(cities, query) == []
    ensures var r := Filtered(cities, query);
      && |r| <= MAX_SUGGESTIONS
      && IsSubsequence(r, cities)
      && (forall c :: c in r ==> c in cities && Contains(c, query))
    ensures query != "" ==>
      var all := Matches(cities, query);
      && Filtered(cities, query) == all[..|Filtered(cities, query)|]
      && (|all| <= MAX_SUGGESTIONS ==> forall c :: c in Filtered(cities, query) <==> c in cities && Contains(c, query))
      && |Filtered(cities, query)| == (if |all| <= MAX_SUGGESTIONS then |all| else MAX_SUGGESTIONS)
  {
    var r := Filtered(cities, query);
    if query == "" {
      assert IsSubsequence(r, cities);
    } else {
      var all := Matches(cities, query);
      var n := |r|;
      assert r == all[..n];
      PrefixIsSubsequence(all, n);
      SubsequenceTransitive(r, all, cities);
      SubsequenceMembers(r, all);
    }
  }

  /** The keys `handleKeyDown` distinguishes. */
  datatype Key = ArrowDown | ArrowUp | Enter | Escape | OtherKey

  /** The highlight after ArrowDown: the next suggestion, wrapping to the first. */
  function StepDown(h: int, len: int): int {
    if h < len - 1 then h + 1 else 0
  }

  /** The highlight after ArrowUp: the previous suggestion; from the first or from none,
      the last. */
  function StepUp(h: int, len: int): int {
    if h > 0 then h - 1 else len - 1
  }

  /** From no highlight or any suggestion, either arrow lands on a suggestion. */
  lemma ArrowStaysInList(h: int, len: int)
    requires -1 <= h < len && len > 0
    ensures 0 <= StepDown(h, len) < len
    ensures 0 <= StepUp(h, len) < len
  {
  }

  /** On a highlighted suggestion the two arrows undo each other, and both wrap around
      at the ends of the list. */
  lemma ArrowsAreInverse(h: int, len: int)
    requires 0 <= h < len
    ensures StepUp(StepDown(h, len), len) == h
    ensures StepDown(StepUp(h, len), len) == h
    ensures StepDown(len - 1, len) == 0 && StepUp(0, len) == len - 1
  {
  }

  /** From no highlight, ArrowDown goes to the first suggestion and ArrowUp to the last. */
  lemma ArrowsFromNoHighlight(len: int)
    requires len > 0
    ensures StepDown(-1, len) == 0 && StepUp(-1, len) == len - 1
  {
  }

  class CitySearch {
    /** The `cities` prop. */
    var cities: seq<string>
    var query: string
    var isOpen: bool
    var highlightedIndex: int
    /** Every city passed to `onSelectCity`, oldest first. */
    var notified: seq<string>

    /** The highlight is none (-1) or a suggestion of the current list. */
    predicate Valid()
      reads this
    {
      -1 <= highlightedIndex < |Filtered(cities, query)|
    }

    function Suggestions(): seq<string>
      reads this
    {
      Filtered(cities, query)
    }

    /** The first render: the query starts as `selectedCity`, the list closed. */
    constructor (cityList: seq<string>, selectedCity: string)
      ensures Valid()
      ensures cities == cityList && query == selectedCity && !isOpen && highlightedIndex == -1
      ensures notified == []
    {
      cities := cityList;
      query := selectedCity;
      isOpen := false;
      highlightedIndex := -1;
      notified := [];
    }

    /** `handleSelectCity`: the query becomes the city, the list closes, the highlight is
        cleared and the parent is told once. */
    method SelectCity(city: string)
      modifies this
      ensures Valid()
      ensures query == city && !isOpen && highlightedIndex == -1 && notified == old(notified) + [city]
      ensures cities == old(cities)
    {
      query := city;
      isOpen := false;
      highlightedIndex := -1;
      notified := notified + [city];
    }

    /** `handleChange`: the typed value becomes the query; the list is open iff it is
        non-empty, and the highlight is cleared. */
    method Change(value: string)
      modifies this
      ensures Valid()
      ensures query == value && (isOpen <==> |value| > 0) && highlightedIndex == -1
      ensures cities == old(cities) && notified == old(notified)
    {
      query := value;
      isOpen := |value| > 0;
      highlightedIndex := -1;
    }

    /** The input's `onFocus`: reopens the list when there is a query. */
    method Focus()
      requires Valid()
      modifies this
      ensures Valid()
      ensures isOpen == (old(isOpen) || |query| > 0)
      ensures query == old(query) && highlightedIndex == old(highlightedIndex)
      ensures cities == old(cities) && notified == old(notified)
    {
      if |query| > 0 {
        isOpen := true;
      }
    }

    /** The `onMouseEnter` of a listed suggestion: it becomes the highlight. */
    method Hover(index: int)
      requires Valid() && 0 <= index < |Suggestions()|
      modifies this
      ensures Valid()
      ensures highlightedIndex == index
      ensures query == old(query) && isOpen == old(isOpen)
      ensures cities == old(cities) && notified == old(notified)
    {
      highlightedIndex := index;
    }

    /** `handleKeyDown`. Closed or empty list: nothing. The arrows move the highlight with
        wrap-around, Enter on a highlight selects that suggestion, Escape closes the list
        and keeps query and highlight. */
    method KeyDown(key: Key)
      requires Valid()
      modifies this
      ensures Valid()
      ensures cities == old(cities)
      ensures var len := |old(Suggestions())|;
        (!old(isOpen) || len == 0) ==>
          query == old(query) && isOpen == old(isOpen) && highlightedIndex == old(highlightedIndex)
          && notified == old(notified)
      ensures var len := |old(Suggestions())|;
        old(isOpen) && len > 0 ==>
          && (key == ArrowDown ==> highlightedIndex == StepDown(old(highlightedIndex), len))
          && (key == ArrowUp ==> highlightedIndex == StepUp(old(highlightedIndex), len))
          && (key.ArrowDown? || key.ArrowUp? ==>
                0 <= highlightedIndex < len && query == old(query) && isOpen && notified == old(notified))
          && (key == Enter && old(highlightedIndex) >= 0 ==>
                var city := old(Suggestions())[old(highlightedIndex)];
                query == city && !isOpen && highlightedIndex == -1 && notified == old(notified) + [city])
          && (key == Enter && old(highlightedIndex) < 0 ==>
                query == old(query) && isOpen && highlightedIndex == -1 && notified == old(notified))
          && (key == Escape ==>
                query == old(query) && !isOpen && highlightedIndex == old(highlightedIndex)
                && notified == old(notified))
          && (key == OtherKey ==>
                query == old(query) && isOpen && highlightedIndex == old(highlightedIndex)
                && notified == old(notified))
    {
      var filtered := Filtered(cities, query);
      if !isOpen || |filtered| == 0 {
        return;
      }
      ArrowStaysInList(highlightedIndex, |filtered|);
      if key == ArrowDown {
        highlightedIndex := StepDown(highlightedIndex, |filtered|);
      } else if key == ArrowUp {
        highlightedIndex := StepUp(highlightedIndex, |filtered|);
      } else if key == Enter && highlightedIndex >= 0 {
        SelectCity(filtered[highlightedIndex]);
      } else if key == Escape {
        isOpen := false;
      }
    }

    /** The `selectedCity` sync effect: an external selection overwrites the query. The
        highlight is cleared as well, so it cannot point past the new list (the source
        keeps it; see `SyncSelectedCityAsWritten`). */
    method SyncSelectedCity(selectedCity: string)
      modifies this
      ensures Valid()
      ensures query == selectedCity && highlightedIndex == -1
      ensures isOpen == old(isOpen) && cities == old(cities) && notified == old(notified)
    {
      query := selectedCity;
      highlightedIndex := -1;
    }

    /** The sync effect as the source writes it: only the query changes. */
    method SyncSelectedCityAsWritten(selectedCity: string)
      modifies this
      ensures query == selectedCity
      ensures highlightedIndex == old(highlightedIndex) && isOpen == old(isOpen)
      ensures cities == old(cities) && notified == old(notified)
    {
      query := selectedCity;
    }
  }

  /** With the source's sync, a highlight set on the longer list survives into a shorter
      one: open list "A1", "A2" for query "A", hover the second, then the parent selects
      "A2". The highlight 1 is now past the one suggestion, and Enter would pass
      `filtered[1]`, which is `undefined`, to `onSelectCity`. */
  method StaleHighlightAfterSync() returns (highlight: int, suggestions: seq<string>)
    ensures suggestions == ["A2"] && highlight == 1 && highlight >= |suggestions|
  {
    var box := new CitySearch(["A1", "A2"], "");
    box.Change("A");
    MatchesOfExample();
    box.Hover(1);
    box.SyncSelectedCityAsWritten("A2");
    highlight := box.highlightedIndex;
    suggestions := box.Suggestions();
  }

  /** The suggestion lists of the example: both cities contain "A", only one "A2". */
  lemma MatchesOfExample()
    ensures Filtered(["A1", "A2"], "A") == ["A1", "A2"]
    ensures Filtered(["A1", "A2"], "A2") == ["A2"]
  {
    assert IsPrefix("A", "A1");
    assert IsPrefix("A", "A2");
    assert IsPrefix("A2", "A2");
    assert !Contains("A1", "A2") by {
      var s := "A1";
      assert s[0..][..2][1] == '1' != "A2"[1];
      assert |s[1..]| == 1 && |s[2..]| == 0;
      NotContains(s, "A2");
    }
  }
}
