# oref-monitor in Dafny

oref-monitor is a web monitor for Home Front Command (Pikud HaOref) rocket and hazard alerts.
It fetches the live alert feed and two history feeds, and derives a status for one city.
The five statuses are safe, stay near a shelter, pre-alert, go to the shelter now, and stay in the shelter.
It also runs a start-up integrity check that gates the app, offers a city search box with keyboard navigation, and relays the provider's feeds through three proxies: an Express server, a Cloudflare worker and a serverless function.

This project models that core and proves properties of it:

- `types.dfy` (module `Types`): the alert categories, the danger set, the five statuses and the two record shapes.
  A history record has one area string; a live alert has an optional list of areas.
- `city_match.dfy` (`CityMatch`): city aliasing and the two-way substring match, the live-alert test and the history filter.
- `history_merge.dfy` (`HistoryMerge`): `mergeAndDeduplicate`.
  It is a method with a loop over the `seen` set, proved equal to a functional specification (dedup on the key, then a stable newest-first sort).
- `status_engine.dfy` (`StatusEngine`): `buildCityTimeline`, `determineStatusFromData` and `formatDateParam`.
- `json.dfy` (`JsonValue`) and `integrity_check.dfy` (`IntegrityCheck`): the seven start-up checks, run over abstract HTTP responses and a small JSON value type, and the report they produce.
- `integrity_gate.dfy` (`Gate`): the `loading`/`passed`/`failed` machine of `IntegrityGate` and its render decision.
- `use_alerts.dfy` (`UseAlerts`): the `useAlerts` hook as a class, with one method per event.
  The events are a city switch (with effect cleanup), completion of the initial load, a history tick, and a poll.
- `city_search.dfy` (`CitySearchBox`): the suggestion list, and the `CitySearch` box's state as a class whose methods are its event handlers.
- `server.dfy` (`Server`): the Express gates.
  They are the content-length gate, the method gate, the `fromDate`/`toDate` check, the query-parameter sanitiser and the order of routing decisions.
- `search_params.dfy` (`SearchParams`): the part of WHATWG `URLSearchParams` the relays use.
- `worker.dfy` (`Worker`) and `proxy.dfy` (`Proxy`): the two relay handlers.
- `wrappers.dfy`, `text.dfy`, `sequences.dfy`: `Option`, string and subsequence helpers.

Time is integer milliseconds, and `now` is a parameter.
Every network answer is an input value.

## Model

| member | source | states |
|---|---|---|
| Types.CategoryCodes | src/types.ts:35-44 | The eight category codes are exactly 1, 2, 7, 10, 11, 12, 13, 14, listed in strictly increasing order, so they are pairwise distinct. |
| Types.DangerCategories | src/types.ts:46-51 | The danger set is exactly {1, 2, 10, 12} and lies within the codes. Earthquake, tsunami, END and PRE_ALERT are outside it. |
| Types.FiveStatuses | src/types.ts:1-6 | Every status is one of the five: safe, near_shelter, pre_alert, go_to_shelter, in_shelter. |
| CityMatch.GetCityNames | src/api.ts:24-25 | The alias list starts with the city itself. Every alias contains the city's name. Any city but Givatayim is its own only alias. |
| CityMatch.EmptyAreaAndOwnNameMatch | src/api.ts:27-30 | An empty area string matches every city, and every city matches its own name. |
| CityMatch.OtherCityMatching | src/api.ts:24-30 | For a city other than Givatayim, a record matches iff the area and the name contain one another. |
| CityMatch.GivatayimMatching | src/api.ts:24-30 | For Givatayim, a record matches iff the area contains "Givatayim" or the area lies inside the east or west district name. |
| CityMatch.DistrictCityMatching | src/api.ts:24-30 | The same iff holds for any city whose two district aliases contain its name. |
| CityMatch.AnyAreaMatches | src/api.ts:108-110 | True iff some area of the list matches the city. |
| CityMatch.IsCityInActiveAlerts | src/api.ts:100-112 | True iff some alert that carries a `data` list has an area matching some alias. Alerts without `data` are skipped. |
| CityMatch.FilterCityHistory | src/api.ts:114-117 | Keeps exactly the records whose area matches the city, in their original order (a subsequence). |
| HistoryMerge.DedupProperties | src/api.ts:123-135 | The kept records' keys are the input keys minus those already seen. No key repeats. The kept records are a subsequence of the input. |
| HistoryMerge.DedupKeepsFirst | src/api.ts:126-135 | Every kept record is the first record of the input with its key. |
| HistoryMerge.InsertNewest | src/api.ts:137-140 | Insertion adds exactly the one record (same multiset plus it). |
| HistoryMerge.SortNewestFirst | src/api.ts:137-140 | The sort result is a permutation of its input and is non-increasing in time. |
| HistoryMerge.SortIsStable | src/api.ts:137-140 | The sort is stable: for every time, the records with that time appear in the result in the same order as in the input, so of two equally new records the one merged first comes first. |
| HistoryMerge.SortKeepsKeysDistinct | src/api.ts:137-140 | Sorting keeps the keys distinct. |
| HistoryMerge.MergedSortedAndDistinct | src/api.ts:119-141 | The merged list is newest first and never holds two records with the same key. |
| HistoryMerge.MergedKeys | src/api.ts:119-141 | The merged key set is the union of the two inputs' key sets, so the length is at most the sum of the input lengths. |
| HistoryMerge.MergedRecords | src/api.ts:123-135 | Every merged record comes from an input and is the first with its key in full history followed by range history. |
| HistoryMerge.MergedPrefersFullHistory | src/api.ts:134-135 | When full history has a key, the record kept for that key is a full-history record. |
| HistoryMerge.MergeAndDeduplicate | src/api.ts:119-141 | The `seen`-set loop followed by the sort computes exactly the merged specification. |
| HistoryMerge.KeyStringInjective | src/api.ts:127 | If no `alertDate` holds a vertical bar, two records have the same joined key string iff they have the same (date, area, category) key. |
| HistoryMerge.KeyStringCollision | src/api.ts:127 | With a vertical bar inside `alertDate`, two different records can share a joined key string. |
| StatusEngine.BuildCityTimeline | src/api.ts:143-155 | A record is in the timeline iff it is merged, matches the city and is no older than the cutoff. The timeline keeps the merged order (a subsequence). |
| StatusEngine.TimelineSortedAndDistinct | src/api.ts:143-155 | The timeline is newest first and has no repeated key. |
| StatusEngine.TimelineCutoffInclusive | src/api.ts:151-154 | A matching record exactly at `now - hoursBack` hours is kept. |
| StatusEngine.ClassifyLatest | src/api.ts:176-201 | The newest record is always reported. Danger within 90 s gives go_to_shelter, and danger at or after 90 s gives in_shelter. END gives near_shelter iff the title (or, failing it, the description) contains the stay-near phrase. PRE_ALERT gives pre_alert. Each condition is an iff. |
| StatusEngine.DetermineStatusFromData | src/api.ts:157-202 | An empty city gives (safe, none). A live-alert match gives (go_to_shelter, none). With neither, a city that no record of either feed names gives (safe, none). Any reported record is a merged record matching the city, and the result is then the classification of that record. |
| StatusEngine.CityRecordsNonEmpty | src/api.ts:169-174 | The merged city records are non-empty iff either feed has a record matching the city. |
| StatusEngine.StatusWithoutLastAlert | src/api.ts:163-174 | No lastAlert is reported iff the city is empty, a live alert names it, or neither feed has a matching record. |
| StatusEngine.LastAlertIsNewest | src/api.ts:169-176 | The reported lastAlert comes from one of the feeds, matches the city and is at least as new as every matching record of both feeds. |
| StatusEngine.GoToShelterFromHistory | src/api.ts:179-186 | Without a live alert, go_to_shelter iff the reported record is a danger category less than 90 s old. |
| StatusEngine.ShelterRunBoundary | src/api.ts:179-186 | A danger record 89 999 ms old gives go_to_shelter; one exactly 90 000 ms or 90 001 ms old gives in_shelter. |
| StatusEngine.ScenarioLiveAlert | src/api.ts:165-167 | A live alert naming the city gives (go_to_shelter, none) whatever the history. |
| StatusEngine.ScenarioInShelter | src/api.ts:179-185 | A missile record 200 s old gives in_shelter with that record. |
| StatusEngine.ScenarioStayNear | src/api.ts:188-192 | An END record whose title holds the stay-near phrase gives near_shelter. |
| StatusEngine.ScenarioStayNearFromDescription | src/api.ts:188-192 | An END record with an empty title and the stay-near phrase in its description gives near_shelter: the empty title falls through to the description. |
| StatusEngine.ScenarioAllClear | src/api.ts:188-194 | An END record without the phrase gives safe and still reports the record. |
| StatusEngine.SingleRecordCity | src/api.ts:114-117 | A lone record naming a city other than Givatayim is that city's record list. |
| StatusEngine.FormatDateParam | src/api.ts:32-37 | The result has dots at positions 2 and 5 and ends with the year. |
| StatusEngine.FormatDateParamFields | src/api.ts:32-37 | For a four-digit year the text is ten characters: two digits of day, two of month+1 and four of year, which read back as those values. |
| StatusEngine.PaddedValue | src/api.ts:33-34 | Zero-padding to two places keeps the digits' value. |
| IntegrityCheck.TestAlertsEndpoint | src/integrityCheck.ts:45-79 | Passes iff the response is ok and its body is blank or valid JSON. |
| IntegrityCheck.TestHistoryEndpoint | src/integrityCheck.ts:81-163 | Passes iff the response is ok, non-blank, valid JSON and a non-empty array. On a pass it hands on the array; on every failing path it hands on []. |
| IntegrityCheck.TestHistoryRangeEndpoint | src/integrityCheck.ts:165-244 | Passes iff the response is ok and the body is blank or a JSON array, which may be empty. A blank body or a failure hands on []. |
| IntegrityCheck.StructureProblem | src/integrityCheck.ts:257-277 | A record has no problem iff it has a non-empty string date, a non-empty string area and a numeric category. |
| IntegrityCheck.ScanStructure | src/integrityCheck.ts:255-278 | The scan returns no problem iff all sampled records are well formed, and throws iff the first record that is not well formed is `null`. |
| IntegrityCheck.TestAlertStructure | src/integrityCheck.ts:246-285 | The early-return loop over the 50-record sample computes exactly the structure-check specification. |
| IntegrityCheck.StructurePassesIff | src/integrityCheck.ts:246-285 | The structure check passes iff each of the first min(50, n) records is well formed, so empty input passes. |
| IntegrityCheck.StructureReadsOnlySample | src/integrityCheck.ts:255 | Records after the fiftieth never change the structure result. |
| IntegrityCheck.CategoriesPassIff | src/integrityCheck.ts:287-315 | The categories check examines every record and passes iff every category is one of the eight codes. |
| IntegrityCheck.NewestDate | src/integrityCheck.ts:327-331 | The newest date is invalid iff some record's date is invalid. Otherwise it is some record's date and no record is newer. |
| IntegrityCheck.FreshnessPassesIff | src/integrityCheck.ts:317-355 | With valid dates, freshness passes iff some record is at most 24 hours old. |
| IntegrityCheck.FreshnessBoundary | src/integrityCheck.ts:342-348 | A record exactly 24 hours old passes; one millisecond older fails as stale. |
| IntegrityCheck.ConsistencyFailsOnlyWhenBothEmpty | src/integrityCheck.ts:357-394 | When the check completes, it fails iff both sources are empty. It can only throw on a `null` among the first 200 records of either source. |
| IntegrityCheck.NoOverlapPasses | src/integrityCheck.ts:377-386 | Two non-empty sources with no area in common still pass. |
| IntegrityCheck.RunIntegrityChecks | src/integrityCheck.ts:396-420 | The push sequence computes exactly the run specification. |
| IntegrityCheck.ReportShape | src/integrityCheck.ts:405-417 | A completed report holds seven results named, in order: alerts, history, range, structure, categories, freshness, consistency. Its `passed` is the conjunction of the first two. |
| IntegrityCheck.VerdictFromCriticalChecks | src/integrityCheck.ts:416-417 | `passed` is decided by the alerts and history endpoint tests alone. |
| IntegrityCheck.HistoryFailureFailsRun | src/integrityCheck.ts:416-417 | A failed history endpoint always gives a completed, failed report. |
| IntegrityCheck.RejectedOnlyOnNull | src/integrityCheck.ts:409-414 | A run is rejected only when the handed-on history or range data holds a `null` record where a check reads it. |
| IntegrityCheck.EmptyHistoryFailsRun | src/integrityCheck.ts:81-163 | An ok, empty history array fails the run even when the alerts endpoint passes. |
| Gate.RowsFollowResults | src/IntegrityGate.tsx:100-110 | The error screen has one row per result, in report order, with the same name and detail, and marked ✓ iff the result passed. |
| Gate.ChildrenIffPassed | src/IntegrityGate.tsx:30-38 | In a settled state, children are rendered iff the state is `passed`. `failed` shows the error screen with the report's rows, and `loading` shows the spinner. |
| Gate.FailedWithoutReportOpens | src/IntegrityGate.tsx:34-38 | The render falls through to the children when `failed` comes without a report. |
| Gate.IntegrityGate.constructor | src/IntegrityGate.tsx:16-17 | The gate starts in `loading` with no report. |
| Gate.IntegrityGate.BeginRun | src/IntegrityGate.tsx:20 | A run first shows `loading` and keeps the old report. |
| Gate.IntegrityGate.FinishRun | src/IntegrityGate.tsx:21-23 | A completed run stores its report, then becomes `passed` iff the report passed, else `failed`. |
| Gate.IntegrityGate.RunChecks | src/IntegrityGate.tsx:19-28 | On mount and on each retry, a completed run leaves its report, and the gate renders children iff the report passed, else the error screen. A rejected run leaves the spinner up. |
| UseAlerts.AlertsHook.constructor | src/useAlerts.ts:25-34 | Every state value starts empty, and history is not loaded. |
| UseAlerts.AlertsHook.LoadHistory | src/useAlerts.ts:36-46 | Both snapshots are overwritten, even with empty lists. `historyLoaded` is set iff the full history is non-empty. Nothing else changes. |
| UseAlerts.AlertsHook.ComputeAndSetStatus | src/useAlerts.ts:48-63 | Status and lastAlert come from the cached snapshots with no live alerts, and the timeline is the six-hour city timeline. lastChecked and error are not written. |
| UseAlerts.AlertsHook.ShowStatus | src/useAlerts.ts:119-135 | Status, lastAlert and timeline are set from the given live alerts and the cached snapshots. |
| UseAlerts.AlertsHook.SwitchCity | src/useAlerts.ts:65-72 | The old effect is cancelled. For a non-empty city, status, lastChecked, timeline and error are cleared before any fetch. An empty city writes nothing. |
| UseAlerts.AlertsHook.InitDone | src/useAlerts.ts:74-94 | A cancelled run writes no state. Otherwise a load that throws, or one with empty full history, gives an error message and status `safe` and computes nothing more. A load with full history computes the status, timeline and lastChecked and clears the error. |
| UseAlerts.AlertsHook.ShowInitialStatus | src/useAlerts.ts:79-87 | Once the history is cached, a live init with no full history sets the "no data" error and `safe`. With full history it sets the computed status and timeline, stamps lastChecked and clears the error. |
| UseAlerts.AlertsHook.HistoryTickDone | src/useAlerts.ts:98-104 | A tick that throws keeps the previous data. A loaded tick replaces the snapshots and recomputes status and timeline only if not cancelled. lastChecked and error are never written. |
| UseAlerts.AlertsHook.Poll | src/useAlerts.ts:112-143 | Nothing happens with no city or no loaded history. A successful poll recomputes from the live alerts plus the snapshots, sets lastChecked and clears the error. A failed poll sets the error and keeps status, lastAlert and timeline. `isPolling` is false afterwards. |
| UseAlerts.AlertsHook.PollLoaded | src/useAlerts.ts:115-142 | The body of `pollAlerts` past its guard, with the same outcomes. |
| UseAlerts.AlertsHook.ShowFetched | src/useAlerts.ts:117-137 | Fetched live alerts are shown, lastChecked is the poll time and the error is cleared. |
| CitySearchBox.FilteredIsLeadingMatches | src/CitySearch.tsx:23-25 | An empty query gives no suggestions. Otherwise the suggestions are the leading matches in the cities' order, each containing the query: all of them when there are at most 20, else exactly the first 20. |
| CitySearchBox.ArrowStaysInList | src/CitySearch.tsx:62-66 | From no highlight or any suggestion, either arrow lands on a suggestion. |
| CitySearchBox.ArrowsAreInverse | src/CitySearch.tsx:62-66 | On a suggestion, ArrowUp undoes ArrowDown and vice versa. Both wrap around at the ends. |
| CitySearchBox.ArrowsFromNoHighlight | src/CitySearch.tsx:63-66 | From no highlight, ArrowDown goes to the first suggestion and ArrowUp to the last. |
| CitySearchBox.CitySearch.constructor | src/CitySearch.tsx:17-19 | The query starts as the selected city, with the list closed and nothing highlighted. |
| CitySearchBox.CitySearch.SelectCity | src/CitySearch.tsx:41-49 | The query becomes the city, the list closes, the highlight clears and the parent is told once. |
| CitySearchBox.CitySearch.Change | src/CitySearch.tsx:51-56 | The query becomes the typed value. The list is open iff the value is non-empty, and the highlight clears. |
| CitySearchBox.CitySearch.Focus | src/CitySearch.tsx:85 | Focus opens the list when there is a query, and changes nothing else. |
| CitySearchBox.CitySearch.Hover | src/CitySearch.tsx:110 | The hovered suggestion becomes the highlight. |
| CitySearchBox.CitySearch.KeyDown | src/CitySearch.tsx:58-73 | Keys do nothing while the list is closed or empty. Arrows step with wrap-around and stay in the list. Enter selects the highlighted suggestion only when there is one. Escape closes the list and keeps the query and the highlight. The highlight stays valid. |
| CitySearchBox.CitySearch.SyncSelectedCity | src/CitySearch.tsx:27-29 | The selected city overwrites the query. The highlight is cleared so that it stays valid (the corrected form). |
| CitySearchBox.CitySearch.SyncSelectedCityAsWritten | src/CitySearch.tsx:27-29 | Only the query changes. |
| CitySearchBox.StaleHighlightAfterSync | src/CitySearch.tsx:27-29 | With the sync as written, the highlight 1 survives into a one-item list, past its end. |
| Server.LeadingDigitCount | server.js:65 | Counts exactly the leading digits that `parseInt` reads. |
| Server.ParseIntOfDigits | server.js:65 | `parseInt` of a digit string is its decimal value. |
| Server.ParseIntOfNatToString | server.js:65 | `parseInt` reads back any written natural number. |
| Server.SizeGateCases | server.js:64-71 | A missing or empty header passes, and so does a non-numeric one (NaN). A numeric one gets 413 iff it is above 1024. |
| Server.SizeGateFirst | server.js:64-80 | An oversized request gets 413 whatever its method or path. |
| Server.MethodGateIff | server.js:74-80 | Past the size gate, the request gets 405 iff its method is not GET, HEAD or OPTIONS. |
| Server.RangeParamsAccepted | server.js:98-111 | Dates are accepted iff each present, truthy one has the `dd.dd.dddd` shape. fromDate is rejected first. Missing or empty dates pass. |
| Server.PatternIsShapeOnly | server.js:84 | The pattern checks shape only ("99.99.0000" passes, "1.1.2024" fails), and an array value is tested by its joined text. |
| Server.FormattedDatesPass | server.js:84 | Every date written by `formatDateParam` with a four-digit year matches the pattern. |
| Server.DatesCheckedOnlyOnRange | server.js:137-150 | A date rejection happens only on the history-range route, and a forward to that route means the dates passed. |
| Server.ApiFallbackIff | server.js:123-183 | Past both gates, a request gets the /api 404 iff it is under /api and under none of the four routes. |
| Server.SegmentMatching | server.js:123-178 | Mounts match whole path segments and ignore ASCII case: /api/history-range is not under /api/history. |
| Server.QueryStartIs | server.js:87-91 | The query begins at the first `?`, or the path has none. |
| Server.ValueEnd | server.js:91 | A parameter's value ends at the next `&` or the end of the path. |
| Server.FindParam | server.js:91 | A found position holds `?` or `&` followed by `key=`. |
| Server.SanitizeAsWrittenExample | server.js:86-96 | As written, "/h?foo=1&lang=he" with a disallowed `foo` becomes "/h&lang=he". |
| Server.RemoveFirstParamExample | server.js:90-93 | One deletion takes the `?` along with the first parameter. |
| Server.SanitizeAsWrittenLosesQuery | server.js:86-96 | As written, the result has no `?` left, so `lang` becomes part of the path. |
| Server.SanitizeAsWrittenDeletesOnly | server.js:86-96 | As written, the sanitiser only deletes characters (the result is a subsequence of the path), and it returns the path unchanged when every key of the request is allowed. |
| Server.RemoveQueryParamKeepsPath | server.js:88-94 | The corrected deletion only removes characters and never changes the part before the query. |
| Server.RemoveQueryParamExample | server.js:90-93 | The corrected deletion gives "/h?lang=he". |
| Server.SanitizeProxyPath | server.js:86-96 | In the corrected form of the Findings row, the loop over the request's keys computes `SanitizeAll`: each key not allowed removes one parameter of that name, in order. |
| Server.SanitizeAllDeletesOnly | server.js:86-96 | The sanitised path is a subsequence of the original with the same path part, and it is unchanged when every key of the request is allowed. |
| Server.SanitizeAllOnlyAllowed | server.js:82-96 | With the keys of the path's own query (which holds no second `?`), no `name=value` parameter with a name outside the allowed four is left. Every other parameter is kept as often as it occurred, and none is added. |
| Server.SanitizeAllPending | server.js:88-95 | Handling the keys still pending, from a state that bounds each disallowed name's `name=value` count by its pending keys, leaves only allowed `name=value` parameters. |
| Server.SanitizingStart | server.js:87-88 | Before the loop, the keys `searchParams.entries()` yields are free of `&` and `=`, and each name's `name=value` count is at most its number of keys. |
| Server.SanitizingStep | server.js:89-94 | One key handled keeps that bound for the keys still pending, keeps every parameter that is not a disallowed `name=value`, and adds none. |
| Server.SanitizingDone | server.js:88-95 | With no key left, no disallowed `name=value` parameter remains. |
| Server.RemoveQueryParamParts | server.js:90-93 | In a query with no second `?`, the corrected deletion of `key` removes exactly the first `key=value` parameter the query's parts hold, and leaves no second `?`. |
| Server.FindParamParts | server.js:91 | The first match of `[?&]key=` after a separator is the separator of the first `key=value` part, and cutting it out leaves the other parts in order. |
| Server.RemoveFirstValuedCount | server.js:90-93 | Removing the first `key=value` part lowers that key's count by one when there was one, and raises no other count. |
| Server.RemoveFirstValuedMultiset | server.js:90-93 | Removing the first `key=value` part removes nothing else and adds nothing. |
| Server.CountedByNames | server.js:87-88 | A name occurs among the query's names at least as often as `name=value` parts carry it. |
| Server.PartsClean | server.js:87-88 | The parameters `URLSearchParams` reads hold no `&` and are never empty. |
| Server.NamesClean | server.js:87-88 | The names of `&`-free parameters hold neither `&` nor `=`. |
| Server.ValuedHasName | server.js:87-91 | A parameter with a `=` is the `name=value` form of its own name, and that name holds no `=`. |
| Server.BareNameKept | server.js:87-91 | For "/a?debug&lang=he" the query's names are `debug` and `lang`, and its parts are "debug" and "lang=he". The bare `debug` is not allowed, yet it is no `name=value` part, so `[?&]debug=` cannot remove it. |
| Server.Lower | server.js:123-183 | Lower-casing maps each character by ASCII case folding and keeps the length. |
| SearchParams.WithoutRemoves | worker/worker.js:43 | Removing a name drops exactly its pairs, keeps names distinct and leaves other names' values. |
| SearchParams.SetParamEffect | worker/worker.js:43 | After `set`, `get` of the name gives the new value, other names are unchanged, the name set gains just that name and distinct names stay distinct. |
| SearchParams.CopyParams | worker/worker.js:42-44 | After the copy loop each incoming name has its last incoming value and other names keep theirs. The names are those of both lists and stay distinct. |
| SearchParams.LastValuePresent | worker/worker.js:42-44 | A last value exists exactly for the names present. |
| Worker.AllowedOriginIff | worker/worker.js:13-22 | The allowed origin echoes the request's iff it is listed. It is always a listed origin, and it is the first one when there is no Origin header. |
| Worker.HandleRequest | worker/worker.js:24-66 | OPTIONS gets 204 with CORS whatever the path. Other non-GET methods get 405 without CORS, and an unlisted pathname gets 404. A listed GET goes to its target with every query name at its last value; a rejected fetch throws. An upstream status of 204, 205 or 304, or one outside 200 to 599, throws too, because the relayed body is a non-null `ArrayBuffer`; any other answer keeps the upstream status with the relay headers. |
| Worker.RelayHeadersComplete | worker/worker.js:56-65 | A relayed answer carries the allowed origin, a three-second public cache and the upstream content type, or JSON when there is none. |
| Proxy.InheritedEndpointCrashes | api/proxy.js:15-22 | As written, `?endpoint=toString` gets past the guard and `new URL` throws, instead of a 400. |
| Proxy.CheckEndpointIff | api/proxy.js:15-21 | The corrected check never throws. It accepts iff the endpoint's property name is one of the four own targets, and it agrees with the written check wherever that one does not throw. |
| Proxy.RepeatedEndpointRejected | api/proxy.js:13-15 | A repeated `endpoint` is looked up by its joined text and rejected. |
| Proxy.CopyQuery | api/proxy.js:24-28 | Each string-valued parameter except `endpoint` is set on the target. Repeated parameters are dropped. The names stay distinct. |
| Proxy.Handle | api/proxy.js:11-77 | With the corrected endpoint check of the Findings row: a bad endpoint gets 400 without CORS, before OPTIONS is looked at. OPTIONS on a valid endpoint gets 204 with CORS. Otherwise the target is requested with GET and the copied query; the upstream status is mirrored, or 200 when absent, a failed request gives 502 and a timeout 504, all with CORS. |

## Left out

- Network I/O is left out: the provider fetches, `fetchWithTimeout`, the `https.request` streaming of the serverless relay and the worker's `fetch`. Each answer is an input value: a status, an ok flag, the body text and its parsed JSON.
- `JSON.parse` is left out. A parsed body is a small JSON value type with integer numbers only, and of repeated object keys the last one wins.
- Timers, `Promise.all` and interleavings are left out. Each completion is one atomic event method. `pollAlerts` has no `cancelled` guard, so a stale poll can still write state; that race is not modelled.
- `UseAlerts.AlertsHook.InitDone`, `UseAlerts.AlertsHook.HistoryTickDone`: a load that throws leaves the snapshots unchanged. The source assigns the refs before the throw only when the provider returns a `null` body, which is left out.
- The `cancelled` flag of each effect run is a generation counter: a run started at `token` is cancelled iff further cleanups have happened.
- Date parsing, `Date.now` and the calendar are left out. Each history record carries its time in milliseconds beside its `alertDate` text, `now` is a parameter, and `hoursBack` is an integer.
- `IntegrityCheck.NewestDate`: the newest date of the freshness check counts as invalid as soon as any record's date is invalid. The source sorts with a NaN comparator, whose outcome depends on the engine's sort.
- `StatusEngine.ClassifyLatest`: `toLowerCase` of the title is treated as identity, because the phrase is Hebrew and has no case.
- Sorting on NaN timestamps in the merge is left out: all merge times are valid integers.
- `HistoryMerge.MergeAndDeduplicate`: records are deduplicated on the (date, area, category) triple. That equals the source's joined key only while no `alertDate` holds a vertical bar (KeyStringInjective, KeyStringCollision).
- The cross-source check counts areas by value; the result's detail texts and Hebrew names are opaque constants.
- `Server.SanitizeProxyPath`: `encodeURIComponent` of the key is treated as identity. Keys with regular-expression metacharacters are not modelled, although a key such as `(` makes the source's `new RegExp` throw.
- `Server.SanitizeProxyPath`: even with the `?` kept, two kinds of disallowed parameter are forwarded. A bare name, as `debug` in "/api/alerts?debug&lang=he", is a key of `searchParams` but has no `=` for the pattern to match (BareNameKept). A percent-encoded name such as `%64ebug=1` decodes to the key `debug`, but the pattern is matched against the raw text.
- `Server.SanitizeAllOnlyAllowed`: percent-decoding and `+` in names are not modelled. The guarantee needs a query with no second `?` and keys read from that same query. On the cities route the rewrite to "/Shared/Ajax/GetDistricts.aspx?lang=he" puts a second `?` in front of the incoming query, and the keys are read from the request's URL, not from the rewritten path.
- `Worker.HandleRequest`: the throw for a status the `Response` constructor refuses follows the Fetch standard; the Workers runtime is assumed to follow it.
- The rate limiter, helmet, `pathRewrite`, the proxy middleware itself, static files and response bodies are left out. Express mounts fold only ASCII case.
- The serverless relay's second `end` after a timeout (the destroyed request's error handler) is left out; the answer stays 504.
- A change of the search box's `cities` prop, the click-outside handler and DOM focus handling are left out.
- UI, theming, the city list fetch, `DefaultCitySelector` and `setupProxy.js` are left out; they hold no logic of the core.

## Findings

| source | as written | input that shows it | evidently intended | confidence | as-written member | corrected member |
|---|---|---|---|---|---|---|
| server.js:86-96 | The deletion pattern (a `?` or `&`, then `key=` and the value) takes the leading `?` with a disallowed first parameter, so the following allowed parameters join the path. | path "/h?foo=1&lang=he" with query keys foo, lang gives "/h&lang=he" | drop only `foo=1` and keep "/h?lang=he" | not executed | Server.SanitizeAsWrittenLosesQuery | Server.RemoveQueryParamKeepsPath |
| api/proxy.js:15-22 | `TARGETS[endpoint]` also finds members inherited from `Object.prototype`, which are truthy, so the guard passes and `new URL` of a function throws. | `?endpoint=toString` | answer 400 for any endpoint not among the four | not executed | Proxy.InheritedEndpointCrashes | Proxy.CheckEndpointIff |
| src/CitySearch.tsx:27-29 | The `selectedCity` sync replaces the query but keeps `highlightedIndex`, which may point past the new, shorter list; Enter then hands `filtered[h]`, `undefined`, to `onSelectCity`. | cities "A1", "A2"; type "A"; hover the second; parent selects "A2" | clear the highlight on sync, keeping it within the list | not executed | CitySearchBox.StaleHighlightAfterSync | CitySearchBox.CitySearch.SyncSelectedCity |
