/** The filter state of the activity-log screen: the `useActivityLogs` hook
    (campaign-manager-frontend/src/hooks/useActivityLogs.js) and the same
    handlers written out again in components/logs/ActivityLogViewer.jsx.
    Filters are a JavaScript object, modelled as a map of own properties;
    a spread `{...a, ...b}` is the right-biased union `a + b`. */
module LogFilters {
  import opened Values
  import opened LogQueries

  /** The fixed defaults: page 1, 50 per page, every other filter empty. */
  const Defaults: Filters := map[
    "user_id" := Str(""), "action" := Str(""), "status" := Str(""),
    "resource_type" := Str(""), "start_date" := Str(""), "end_date" := Str(""),
    "page" := Num(1), "per_page" := Num(50)]

  /** The hook's first state: `{...defaults, ...initialFilters}`. */
  function InitialFilters(initial: Filters): (f: Filters)
    ensures f.Keys == Defaults.Keys + initial.Keys
    ensures forall k :: k in initial ==> f[k] == initial[k]
    ensures forall k :: k in Defaults && k !in initial ==> f[k] == Defaults[k]
  {
    Defaults + initial
  }

  /** `updateFilters(newFilters)` and the viewer's `handleFilterChange`:
      new values win over old ones, and the page goes back to 1. */
  function UpdateFilters(f: Filters, changes: Filters): (r: Filters)
    ensures r.Keys == f.Keys + changes.Keys + {"page"}
    ensures r["page"] == Num(1)
    ensures forall k :: k in changes && k != "page" ==> r[k] == changes[k]
    ensures forall k :: k in f && k !in changes && k != "page" ==> r[k] == f[k]
  {
    f + changes + map["page" := Num(1)]
  }

  /** `changePage(newPage)` and the viewer's `handlePageChange`. */
  function ChangePage(f: Filters, page: Value): (r: Filters)
    ensures r.Keys == f.Keys + {"page"}
    ensures r["page"] == page
    ensures forall k :: k in f && k != "page" ==> r[k] == f[k]
  {
    f["page" := page]
  }

  /** `resetFilters()` and the viewer's reset handler: the fixed defaults,
      whatever the hook was started with. */
  function ResetFilters(f: Filters): (r: Filters)
    ensures r == Defaults
  {
    Defaults
  }

  /** A page supplied along with other filters is ignored. */
  lemma UpdateIgnoresSuppliedPage(f: Filters, changes: Filters)
    requires "page" in changes && changes["page"] != Num(1)
    ensures UpdateFilters(f, changes)["page"] != changes["page"]
  {
  }

  /** Updating with what is already there only resets the page; changing
      the page twice keeps the second. */
  lemma FilterTransitions(f: Filters, changes: Filters, p: Value, q: Value)
    ensures UpdateFilters(UpdateFilters(f, changes), changes) == UpdateFilters(f, changes)
    ensures ChangePage(ChangePage(f, p), q) == ChangePage(f, q)
    ensures ChangePage(UpdateFilters(f, changes), Num(1)) == UpdateFilters(f, changes)
  {
  }

  /** Reset discards the initial filters: it equals the first state only
      when no initial filter overrides a default. */
  lemma ResetForgetsInitialFilters(initial: Filters)
    ensures ResetFilters(InitialFilters(initial)) == InitialFilters(initial) <==>
      forall k :: k in initial ==> k in Defaults && initial[k] == Defaults[k]
  {
    var f := InitialFilters(initial);
    if forall k :: k in initial ==> k in Defaults && initial[k] == Defaults[k] {
      assert f == Defaults;
    }
  }

  /** The viewer's own initial filters (ActivityLogViewer.jsx) are the
      hook's first state with no initial filters. */
  const ViewerInitialFilters: Filters := map[
    "user_id" := Str(""), "action" := Str(""), "status" := Str(""),
    "resource_type" := Str(""), "start_date" := Str(""), "end_date" := Str(""),
    "page" := Num(1), "per_page" := Num(50)]

  lemma ViewerStartsFromDefaults()
    ensures ViewerInitialFilters == InitialFilters(map[])
    ensures ViewerInitialFilters == ResetFilters(ViewerInitialFilters)
  {
  }

  /** Statistics are requested only when no user, action or status filter
      is set. */
  predicate ShouldLoadStats(f: Filters) {
    !JsTruthy(Prop(f, "user_id")) && !JsTruthy(Prop(f, "action")) && !JsTruthy(Prop(f, "status"))
  }

  /** The resource type and the date range never suppress the statistics. */
  lemma StatsGuardReadsThreeKeys(f: Filters, g: Filters)
    requires Prop(f, "user_id") == Prop(g, "user_id")
    requires Prop(f, "action") == Prop(g, "action")
    requires Prop(f, "status") == Prop(g, "status")
    ensures ShouldLoadStats(f) == ShouldLoadStats(g)
  {
  }

  /** The object handed to `getLogStats`. */
  function StatsRequest(f: Filters): Filters {
    map["start_date" := Prop(f, "start_date"), "end_date" := Prop(f, "end_date")]
  }

  /** The statistics query carries exactly the date bounds the filters
      carry, nothing else. */
  lemma StatsQueryFromFilters(f: Filters)
    ensures StatsParams(StatsRequest(f)) == StatsParams(f)
  {
    ParamsReadsOnlyKeys(StatsKeys, StatsRequest(f), f);
  }

  /** What the logs endpoint answers: the `logs`, `pagination` and
      `filters` fields of the response data. */
  datatype LogsData = LogsData(logs: Value, pagination: Value, filterOptions: Value)

  datatype Result<+T> = Success(value: T) | Failed(failure: Failure)

  /** The screen state the loader writes. */
  datatype Screen = Screen(
    logs: Value, pagination: Value, filterOptions: Value,
    stats: Value, error: Value, loading: bool)

  /** `a || b` in JavaScript. */
  function Or(a: Value, b: Value): Value {
    if JsTruthy(a) then a else b
  }

  /** `err.response?.data?.error || fallback`: only an HTTP failure has a
      response; the service's own `Error` (as for a 403) has none. */
  function ErrorText(f: Failure, fallback: string): (r: Value)
    requires fallback != ""
    ensures JsTruthy(r)
    ensures f.HttpFailure? && JsTruthy(f.errorField) ==> r == f.errorField
    ensures !(f.HttpFailure? && JsTruthy(f.errorField)) ==> r == Str(fallback)
  {
    if f.HttpFailure? then Or(f.errorField, Str(fallback)) else Str(fallback)
  }

  /** `loadLogs(newFilters)` once both requests have settled. `fetched`
      is the result of `fetchLogs` after its failure mapping; `statsFetched`
      that of `getLogStats`, consulted only when the guard lets it run. */
  function LoadLogs(
    s: Screen, newFilters: Filters,
    fetched: Result<LogsData>, statsFetched: Result<Value>): (r: Screen)
    ensures !r.loading
    ensures fetched.Failed? ==>
      && r.error == ErrorText(fetched.failure, "Failed to load activity logs")
      && r.logs == s.logs && r.pagination == s.pagination
      && r.filterOptions == s.filterOptions && r.stats == s.stats
    ensures fetched.Success? ==>
      && r.error == Str("")
      && r.logs == Or(fetched.value.logs, Array(0))
      && r.pagination == Or(fetched.value.pagination, Object(0))
      && r.filterOptions == Or(fetched.value.filterOptions, Object(0))
      && (ShouldLoadStats(newFilters) && statsFetched.Success? ==> r.stats == statsFetched.value)
      && (!ShouldLoadStats(newFilters) || statsFetched.Failed? ==> r.stats == s.stats)
  {
    match fetched
    case Failed(failure) =>
      s.(error := ErrorText(failure, "Failed to load activity logs"), loading := false)
    case Success(data) =>
      var stats :=
        if ShouldLoadStats(newFilters) && statsFetched.Success? then statsFetched.value else s.stats;
      Screen(Or(data.logs, Array(0)), Or(data.pagination, Object(0)), Or(data.filterOptions, Object(0)),
             stats, Str(""), false)
  }

  /** A 403 from the logs endpoint never shows its admin message: the
      service replaces the error with one that has no response, so the
      screen shows the generic text. */
  lemma ForbiddenShowsGenericText(s: Screen, f: Filters, errorField: Value, statsFetched: Result<Value>)
    ensures LoadLogs(s, f, Failed(MapFailure(LogsEndpoint, HttpFailure(403, errorField))), statsFetched).error
      == Str("Failed to load activity logs")
  {
  }

  /** A failing statistics request leaves the error empty and the old
      statistics in place. */
  lemma StatsFailureIsSilent(s: Screen, f: Filters, data: LogsData, failure: Failure)
    ensures LoadLogs(s, f, Success(data), Failed(failure)).error == Str("")
    ensures LoadLogs(s, f, Success(data), Failed(failure)).stats == s.stats
  {
  }
}
