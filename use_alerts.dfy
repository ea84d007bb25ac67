/** The refresh state of the `useAlerts` hook in src/useAlerts.ts: the React state, the
    three refs holding the cached history, and the `cancelled` flag of each run of the
    city effect. Every asynchronous completion is one atomic event method; timers and
    `Promise.all` are left to the caller, which decides when each event happens. */
module UseAlerts {
  import opened Wrappers
  import opened Types
  import opened HistoryMerge
  import opened StatusEngine

  /** The two error messages the hook shows (their Hebrew texts are not modelled). */
  datatype ErrorMessage =
    | NoDataFromProvider  // no full history: possibly outside Israel
    | CannotConnect       // the provider could not be reached

  /** How `loadHistory` ends: with both lists (the range feed's own failure is already
      turned into `[]`), or with an error. */
  datatype LoadResult = Loaded(full: seq<HistoryAlert>, range: seq<HistoryAlert>) | LoadThrew

  /** How a poll ends: with the active alerts, or with an error while computing. */
  datatype PollResult = Fetched(activeAlerts: seq<OrefAlert>) | PollThrew

  class AlertsHook {
    /** The `cityName` argument of the current render. */
    var cityName: string
    var status: Option<AlertStatus>
    var lastAlert: Option<HistoryAlert>
    var cityHistory: seq<HistoryAlert>
    var isPolling: bool
    /** `lastChecked`, as the millisecond time of the check. */
    var lastChecked: Option<int>
    var error: Option<ErrorMessage>
    /** `fullHistoryRef`, `rangeHistoryRef` and `historyLoadedRef`. */
    var fullHistory: seq<HistoryAlert>
    var rangeHistory: seq<HistoryAlert>
    var historyLoaded: bool
    /** The number of effect cleanups so far. A run of the city effect started when this
        was `token` has its `cancelled` flag set exactly when `token < generation`. */
    var generation: nat

    /** Between events no poll is in progress, and the loaded flag reflects the cache. */
    predicate Valid()
      reads this
    {
      !isPolling && (historyLoaded <==> |fullHistory| > 0)
    }

    /** The hook's first render, before any effect has run. */
    constructor ()
      ensures Valid()
      ensures cityName == "" && status == None && lastAlert == None && cityHistory == []
      ensures lastChecked == None && error == None
      ensures fullHistory == [] && rangeHistory == [] && !historyLoaded && generation == 0
    {
      cityName := "";
      status := None;
      lastAlert := None;
      cityHistory := [];
      isPolling := false;
      lastChecked := None;
      error := None;
      fullHistory := [];
      rangeHistory := [];
      historyLoaded := false;
      generation := 0;
    }

    /** The run started with `token` is still current: not cleaned up, and started for a
        non-empty city (for an empty city the effect returns before starting anything). */
    predicate Live(token: nat)
      reads this
    {
      token == generation && cityName != ""
    }

    /** `loadHistory` after its fetches: both refs are overwritten, even with empty lists,
        and the loaded flag follows the full history alone. */
    method LoadHistory(full: seq<HistoryAlert>, range: seq<HistoryAlert>)
      modifies this
      ensures fullHistory == full && rangeHistory == range && (historyLoaded <==> |full| > 0)
      ensures cityName == old(cityName) && status == old(status) && lastAlert == old(lastAlert)
      ensures cityHistory == old(cityHistory) && isPolling == old(isPolling)
      ensures lastChecked == old(lastChecked) && error == old(error) && generation == old(generation)
    {
      fullHistory := full;
      rangeHistory := range;
      historyLoaded := |full| > 0;
    }

    /** `computeAndSetStatus`: the cached history with no active alerts decides the status,
        the last alert and the timeline; `lastChecked` and `error` are not touched. */
    method ComputeAndSetStatus(city: string, now: int)
      modifies this
      ensures var r := DetermineStatusFromData([], fullHistory, rangeHistory, city, now);
        status == Some(r.status) && lastAlert == r.lastAlert
      ensures cityHistory == BuildCityTimeline(fullHistory, rangeHistory, city, now, HOURS_BACK)
      ensures cityName == old(cityName) && isPolling == old(isPolling) && lastChecked == old(lastChecked)
      ensures error == old(error) && generation == old(generation)
      ensures fullHistory == old(fullHistory) && rangeHistory == old(rangeHistory)
      ensures historyLoaded == old(historyLoaded)
    {
      ShowStatus([], city, now);
    }

    /** The displayed status, last alert and timeline are those the given active alerts
        and the cached history decide for `city` at time `now`. */
    predicate Shows(activeAlerts: seq<OrefAlert>, city: string, now: int)
      reads this
    {
      var r := DetermineStatusFromData(activeAlerts, fullHistory, rangeHistory, city, now);
      status == Some(r.status) && lastAlert == r.lastAlert
      && cityHistory == BuildCityTimeline(fullHistory, rangeHistory, city, now, HOURS_BACK)
    }

    /** The three state updates shared by `computeAndSetStatus` and `pollAlerts`: the
        given active alerts and the cached history decide status, last alert and timeline. */
    method ShowStatus(activeAlerts: seq<OrefAlert>, city: string, now: int)
      modifies this
      ensures var r := DetermineStatusFromData(activeAlerts, fullHistory, rangeHistory, city, now);
        status == Some(r.status) && lastAlert == r.lastAlert
      ensures cityHistory == BuildCityTimeline(fullHistory, rangeHistory, city, now, HOURS_BACK)
      ensures cityName == old(cityName) && isPolling == old(isPolling) && lastChecked == old(lastChecked)
      ensures error == old(error) && generation == old(generation)
      ensures fullHistory == old(fullHistory) && rangeHistory == old(rangeHistory)
      ensures historyLoaded == old(historyLoaded)
    {
      ShowVerdict(activeAlerts, city, now);
      ShowTimeline(city, now);
    }

    /** `setStatus` and `setLastAlert` from the status decision. */
    method ShowVerdict(activeAlerts: seq<OrefAlert>, city: string, now: int)
      modifies this
      ensures var r := DetermineStatusFromData(activeAlerts, fullHistory, rangeHistory, city, now);
        status == Some(r.status) && lastAlert == r.lastAlert
      ensures cityHistory == old(cityHistory)
      ensures cityName == old(cityName) && isPolling == old(isPolling) && lastChecked == old(lastChecked)
      ensures error == old(error) && generation == old(generation)
      ensures fullHistory == old(fullHistory) && rangeHistory == old(rangeHistory)
      ensures historyLoaded == old(historyLoaded)
    {
      var r := DetermineStatusFromData(activeAlerts, fullHistory, rangeHistory, city, now);
      status := Some(r.status);
      lastAlert := r.lastAlert;
    }

    /** `setCityHistory` from the timeline of the last `HOURS_BACK` hours. */
    method ShowTimeline(city: string, now: int)
      modifies this
      ensures cityHistory == BuildCityTimeline(fullHistory, rangeHistory, city, now, HOURS_BACK)
      ensures status == old(status) && lastAlert == old(lastAlert)
      ensures cityName == old(cityName) && isPolling == old(isPolling) && lastChecked == old(lastChecked)
      ensures error == old(error) && generation == old(generation)
      ensures fullHistory == old(fullHistory) && rangeHistory == old(rangeHistory)
      ensures historyLoaded == old(historyLoaded)
    {
      cityHistory := BuildCityTimeline(fullHistory, rangeHistory, city, now, HOURS_BACK);
    }

    /** A render with a new `cityName`: the previous run's cleanup sets its `cancelled`
        flag; for a non-empty city the new run clears the displayed state before any
        fetch. The returned token identifies the new run. */
    method SwitchCity(newCity: string) returns (token: nat)
      requires Valid()
      modifies this
      ensures Valid()
      ensures cityName == newCity && generation == old(generation) + 1 && token == generation
      ensures newCity != "" ==> status == None && lastChecked == None && cityHistory == [] && error == None
      ensures newCity == "" ==>
        status == old(status) && lastChecked == old(lastChecked) && cityHistory == old(cityHistory)
        && error == old(error)
      ensures lastAlert == old(lastAlert) && isPolling == old(isPolling)
      ensures fullHistory == old(fullHistory) && rangeHistory == old(rangeHistory)
      ensures historyLoaded == old(historyLoaded)
    {
      generation := generation + 1;
      cityName := newCity;
      token := generation;
      if newCity != "" {
        status := None;
        lastChecked := None;
        cityHistory := [];
        error := None;
      }
    }

    /** `init` of the run `token` finishing its `loadHistory`. The refs are written even
        when the run was cancelled meanwhile; a cancelled run writes nothing else. Without
        full history it reports the error and shows "safe"; otherwise it computes the
        status, stamps `lastChecked` and clears the error. */
    method InitDone(token: nat, load: LoadResult, now: int)
      requires Valid()
      modifies this
      ensures Valid()
      ensures load.Loaded? ==> fullHistory == load.full && rangeHistory == load.range
      ensures load.LoadThrew? ==> fullHistory == old(fullHistory) && rangeHistory == old(rangeHistory)
      ensures !old(Live(token)) ==>
        status == old(status) && lastAlert == old(lastAlert) && cityHistory == old(cityHistory)
        && lastChecked == old(lastChecked) && error == old(error)
      ensures old(Live(token)) && (load.LoadThrew? || !historyLoaded) ==>
        status == Some(Safe) && lastAlert == old(lastAlert) && cityHistory == old(cityHistory)
        && lastChecked == old(lastChecked)
        && error == Some(if load.LoadThrew? then CannotConnect else NoDataFromProvider)
      ensures old(Live(token)) && load.Loaded? && historyLoaded ==>
        var r := DetermineStatusFromData([], load.full, load.range, cityName, now);
        status == Some(r.status) && lastAlert == r.lastAlert
        && cityHistory == BuildCityTimeline(load.full, load.range, cityName, now, HOURS_BACK)
        && lastChecked == Some(now) && error == None
      ensures cityName == old(cityName) && generation == old(generation)
    {
      var live := Live(token);
      match load
      case LoadThrew =>
        if live {
          error := Some(CannotConnect);
          status := Some(Safe);
        }
      case Loaded(full, range) =>
        LoadHistory(full, range);
        if live {
          ShowInitialStatus(now);
        }
    }

    /** The rest of a live `init` once the history is cached: the "no data" error and
        "safe" without full history, else the computed status, the check stamp and no
        error. */
    method ShowInitialStatus(now: int)
      requires Valid()
      modifies this
      ensures Valid()
      ensures !historyLoaded ==>
        status == Some(Safe) && error == Some(NoDataFromProvider)
        && lastAlert == old(lastAlert) && cityHistory == old(cityHistory) && lastChecked == old(lastChecked)
      ensures historyLoaded ==>
        var r := DetermineStatusFromData([], fullHistory, rangeHistory, cityName, now);
        status == Some(r.status) && lastAlert == r.lastAlert
        && cityHistory == BuildCityTimeline(fullHistory, rangeHistory, cityName, now, HOURS_BACK)
        && lastChecked == Some(now) && error == None
      ensures cityName == old(cityName) && generation == old(generation)
      ensures fullHistory == old(fullHistory) && rangeHistory == old(rangeHistory)
      ensures historyLoaded == old(historyLoaded)
    {
      if !historyLoaded {
        error := Some(NoDataFromProvider);
        status := Some(Safe);
      } else {
        lastChecked := Some(now);
        error := None;
        ComputeAndSetStatus(cityName, now);
      }
    }

    /** The 15-second history tick of run `token` finishing its `loadHistory` (a tick only
        starts while its run is live). The refs are written even if the run was cancelled
        meanwhile; the recomputation happens only if it was not. A failed load keeps the
        previous data. `lastChecked` and `error` are never touched. */
    method HistoryTickDone(token: nat, load: LoadResult, now: int)
      requires Valid()
      modifies this
      ensures Valid()
      ensures load.LoadThrew? ==>
        fullHistory == old(fullHistory) && rangeHistory == old(rangeHistory)
        && status == old(status) && lastAlert == old(lastAlert) && cityHistory == old(cityHistory)
      ensures load.Loaded? ==> fullHistory == load.full && rangeHistory == load.range
      ensures load.Loaded? && !old(Live(token)) ==>
        status == old(status) && lastAlert == old(lastAlert) && cityHistory == old(cityHistory)
      ensures load.Loaded? && old(Live(token)) ==>
        var r := DetermineStatusFromData([], load.full, load.range, cityName, now);
        status == Some(r.status) && lastAlert == r.lastAlert
        && cityHistory == BuildCityTimeline(load.full, load.range, cityName, now, HOURS_BACK)
      ensures lastChecked == old(lastChecked) && error == old(error)
      ensures cityName == old(cityName) && generation == old(generation)
    {
      match load
      case LoadThrew =>
      case Loaded(full, range) =>
        var live := Live(token);
        LoadHistory(full, range);
        if live {
          ComputeAndSetStatus(cityName, now);
        }
    }

    /** `pollAlerts`: nothing without a city or loaded history. Otherwise the fresh active
        alerts and the cached history decide status, last alert and timeline, and the
        check is stamped and the error cleared; a failure only sets the error. */
    method Poll(outcome: PollResult, now: int)
      requires Valid()
      modifies this
      ensures Valid()
      ensures cityName == "" || !historyLoaded ==>
        status == old(status) && lastAlert == old(lastAlert) && cityHistory == old(cityHistory)
        && lastChecked == old(lastChecked) && error == old(error)
      ensures cityName != "" && historyLoaded && outcome.Fetched? ==>
        var r := DetermineStatusFromData(outcome.activeAlerts, fullHistory, rangeHistory, cityName, now);
        status == Some(r.status) && lastAlert == r.lastAlert
        && cityHistory == BuildCityTimeline(fullHistory, rangeHistory, cityName, now, HOURS_BACK)
        && lastChecked == Some(now) && error == None
      ensures cityName != "" && historyLoaded && outcome.PollThrew? ==>
        status == old(status) && lastAlert == old(lastAlert) && cityHistory == old(cityHistory)
        && lastChecked == old(lastChecked) && error == Some(CannotConnect)
      ensures cityName == old(cityName) && generation == old(generation)
      ensures fullHistory == old(fullHistory) && rangeHistory == old(rangeHistory)
      ensures historyLoaded == old(historyLoaded)
    {
      if cityName == "" || !historyLoaded {
        return;
      }
      PollLoaded(outcome, now);
    }

    /** The part of `pollAlerts` past its guard. */
    method PollLoaded(outcome: PollResult, now: int)
      requires Valid()
      modifies this
      ensures Valid()
      ensures outcome.Fetched? ==> Shows(outcome.activeAlerts, cityName, now)
      ensures outcome.Fetched? ==> lastChecked == Some(now) && error == None
      ensures outcome.PollThrew? ==>
        status == old(status) && lastAlert == old(lastAlert) && cityHistory == old(cityHistory)
        && lastChecked == old(lastChecked) && error == Some(CannotConnect)
      ensures cityName == old(cityName) && generation == old(generation)
      ensures fullHistory == old(fullHistory) && rangeHistory == old(rangeHistory)
      ensures historyLoaded == old(historyLoaded)
    {
      isPolling := true;
      match outcome {
        case Fetched(activeAlerts) =>
          ShowFetched(activeAlerts, now);
        case PollThrew =>
          error := Some(CannotConnect);
      }
      isPolling := false;
    }

    /** A successful poll: the status shown, the check stamped and the error cleared. */
    method ShowFetched(activeAlerts: seq<OrefAlert>, now: int)
      modifies this
      ensures Shows(activeAlerts, cityName, now)
      ensures lastChecked == Some(now) && error == None
      ensures cityName == old(cityName) && isPolling == old(isPolling) && generation == old(generation)
      ensures fullHistory == old(fullHistory) && rangeHistory == old(rangeHistory)
      ensures historyLoaded == old(historyLoaded)
    {
      lastChecked := Some(now);
      error := None;
      ShowStatus(activeAlerts, cityName, now);
    }
  }
}
