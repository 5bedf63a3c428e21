/** The query strings of the activity-log service
    (campaign-manager-frontend/src/services/logs.js) and its mapping of a
    403 answer to a fixed message. A query string is modelled as the list
    of (key, value) pairs appended to the `URLSearchParams`, in order;
    percent-encoding is outside the model. */
module LogQueries {
  import opened Values

  type Filters = map<string, Value>
  type Query = seq<(string, Value)>

  /** The keys `fetchLogs` tests, in the order it appends them. */
  const FetchKeys: seq<string> :=
    ["user_id", "action", "status", "resource_type", "start_date", "end_date", "page", "per_page"]
  /** The keys `exportLogs` tests. */
  const ExportKeys: seq<string> := ["user_id", "action", "status", "resource_type", "start_date", "end_date"]
  /** The keys `getLogStats` tests. */
  const StatsKeys: seq<string> := ["start_date", "end_date"]
  const PageKeys: seq<string> := ["page", "per_page"]

  /** `if (filters.k) params.append(k, filters.k)` for each key in turn. */
  function Params(keys: seq<string>, filters: Filters): Query {
    if |keys| == 0 then []
    else
      var v := Prop(filters, keys[0]);
      (if JsTruthy(v) then [(keys[0], v)] else []) + Params(keys[1..], filters)
  }

  function FetchParams(filters: Filters): Query { Params(FetchKeys, filters) }
  function ExportParams(filters: Filters): Query { Params(ExportKeys, filters) }
  function StatsParams(filters: Filters): Query { Params(StatsKeys, filters) }

  /** Every pair is a listed key with its truthy value, and every listed
      key with a truthy value appears: empty strings, zero, `null` and
      missing values are left out. */
  lemma {:induction false} ParamsContents(keys: seq<string>, filters: Filters)
    ensures var q := Params(keys, filters);
      && |q| <= |keys|
      && (forall i :: 0 <= i < |q| ==> q[i].0 in keys && JsTruthy(q[i].1) && q[i].1 == Prop(filters, q[i].0))
      && (forall k :: k in keys && JsTruthy(Prop(filters, k)) ==> exists i :: 0 <= i < |q| && q[i].0 == k)
    decreases |keys|
  {
    if |keys| > 0 {
      ParamsContents(keys[1..], filters);
      var q := Params(keys, filters);
      var rest := Params(keys[1..], filters);
      var head: Query := if JsTruthy(Prop(filters, keys[0])) then [(keys[0], Prop(filters, keys[0]))] else [];
      assert q == head + rest;
      forall k | k in keys && JsTruthy(Prop(filters, k)) ensures exists i :: 0 <= i < |q| && q[i].0 == k {
        if k == keys[0] {
          assert q[0].0 == k;
        } else {
          assert k in keys[1..];
          var j :| 0 <= j < |rest| && rest[j].0 == k;
          assert q[|head| + j] == rest[j];
        }
      }
    }
  }

  /** The query reads nothing but the listed keys: two filter objects that
      agree on them give the same query. */
  lemma {:induction false} ParamsReadsOnlyKeys(keys: seq<string>, f: Filters, g: Filters)
    requires forall k :: k in keys ==> Prop(f, k) == Prop(g, k)
    ensures Params(keys, f) == Params(keys, g)
    decreases |keys|
  {
    if |keys| > 0 {
      assert Prop(f, keys[0]) == Prop(g, keys[0]);
      ParamsReadsOnlyKeys(keys[1..], f, g);
    }
  }

  /** The position of `k` in `keys`, `|keys|` when it is absent. */
  function IndexOf(keys: seq<string>, k: string): (i: nat)
    ensures i <= |keys|
    ensures i < |keys| <==> k in keys
    ensures i < |keys| ==> keys[i] == k
  {
    if |keys| == 0 then 0
    else if keys[0] == k then 0
    else 1 + IndexOf(keys[1..], k)
  }

  predicate Distinct(keys: seq<string>) {
    forall i, j :: 0 <= i < j < |keys| ==> keys[i] != keys[j]
  }

  /** Dropping the first key keeps the rest distinct and shifts every
      other key's position down by one. */
  lemma DistinctTail(keys: seq<string>)
    requires Distinct(keys) && |keys| > 0
    ensures Distinct(keys[1..])
    ensures forall k :: k in keys[1..] ==> k != keys[0] && IndexOf(keys, k) == 1 + IndexOf(keys[1..], k)
  {
    var tail := keys[1..];
    forall i, j | 0 <= i < j < |tail| ensures tail[i] != tail[j] {
      assert tail[i] == keys[i + 1] && tail[j] == keys[j + 1];
    }
    forall k | k in tail ensures k != keys[0] {
      var t := IndexOf(tail, k);
      assert keys[t + 1] == tail[t];
    }
  }

  /** With distinct keys the pairs follow the order of the key list, so no
      key appears twice. */
  lemma {:induction false} ParamsOrdered(keys: seq<string>, filters: Filters)
    requires Distinct(keys)
    ensures var q := Params(keys, filters);
      forall i, j :: 0 <= i < j < |q| ==> IndexOf(keys, q[i].0) < IndexOf(keys, q[j].0)
    decreases |keys|
  {
    if |keys| > 0 {
      var tail := keys[1..];
      DistinctTail(keys);
      ParamsOrdered(tail, filters);
      ParamsContents(tail, filters);
      var q := Params(keys, filters);
      var rest := Params(tail, filters);
      if JsTruthy(Prop(filters, keys[0])) {
        assert q == [(keys[0], Prop(filters, keys[0]))] + rest;
        forall i, j | 0 <= i < j < |q| ensures IndexOf(keys, q[i].0) < IndexOf(keys, q[j].0) {
          assert q[j] == rest[j - 1] && q[j].0 in tail;
          if i > 0 {
            assert q[i] == rest[i - 1] && q[i].0 in tail;
          }
        }
      } else {
        assert q == rest;
        forall i, j | 0 <= i < j < |q| ensures IndexOf(keys, q[i].0) < IndexOf(keys, q[j].0) {
          assert q[i].0 in tail && q[j].0 in tail;
        }
      }
    }
  }

  lemma {:induction false} ParamsConcat(a: seq<string>, b: seq<string>, filters: Filters)
    ensures Params(a + b, filters) == Params(a, filters) + Params(b, filters)
    decreases |a|
  {
    if |a| > 0 {
      assert (a + b)[1..] == a[1..] + b;
      ParamsConcat(a[1..], b, filters);
    } else {
      assert a + b == b;
    }
  }

  /** The export query is the fetch query without paging: the same first
      six keys in the same order, and never `page` or `per_page`. */
  lemma ExportIsFetchWithoutPaging(filters: Filters)
    ensures FetchParams(filters) == ExportParams(filters) + Params(PageKeys, filters)
    ensures forall i :: 0 <= i < |ExportParams(filters)| ==>
      ExportParams(filters)[i].0 != "page" && ExportParams(filters)[i].0 != "per_page"
  {
    assert FetchKeys == ExportKeys + PageKeys;
    ParamsConcat(ExportKeys, PageKeys, filters);
    ParamsContents(ExportKeys, filters);
  }

  /** With distinct keys no key appears twice in the query. */
  lemma ParamsNoDuplicates(keys: seq<string>, filters: Filters)
    requires Distinct(keys)
    ensures forall i, j :: 0 <= i < j < |Params(keys, filters)| ==>
      Params(keys, filters)[i].0 != Params(keys, filters)[j].0
  {
    ParamsOrdered(keys, filters);
  }

  /** The stats query carries at most the two date bounds, and a key
      appears at most once in every query. */
  lemma QueriesHaveNoDuplicates(filters: Filters)
    ensures |StatsParams(filters)| <= 2
    ensures forall i :: 0 <= i < |StatsParams(filters)| ==>
      StatsParams(filters)[i].0 in {"start_date", "end_date"}
    ensures forall i, j :: 0 <= i < j < |FetchParams(filters)| ==> FetchParams(filters)[i].0 != FetchParams(filters)[j].0
    ensures forall i, j :: 0 <= i < j < |ExportParams(filters)| ==> ExportParams(filters)[i].0 != ExportParams(filters)[j].0
  {
    ParamsContents(StatsKeys, filters);
    ParamsNoDuplicates(FetchKeys, filters);
    ParamsNoDuplicates(ExportKeys, filters);
  }

  /** How a request can fail: an HTTP answer with a status and the body's
      `error` field, an error without a response, or an `Error` thrown by
      the service itself. */
  datatype Failure =
    | HttpFailure(status: int, errorField: Value)
    | NoResponse
    | Thrown(message: string)

  datatype Endpoint = LogsEndpoint | ExportEndpoint | StatsEndpoint

  function ForbiddenMessage(e: Endpoint): string {
    match e
    case LogsEndpoint => "Admin access required to view activity logs"
    case ExportEndpoint => "Admin access required to export activity logs"
    case StatsEndpoint => "Admin access required to view activity statistics"
  }

  /** The `catch` block of each service call: a 403 becomes an `Error`
      with the endpoint's message; anything else is rethrown as it came. */
  function MapFailure(e: Endpoint, f: Failure): (r: Failure)
    ensures f.HttpFailure? && f.status == 403 ==> r == Thrown(ForbiddenMessage(e))
    ensures !(f.HttpFailure? && f.status == 403) ==> r == f
  {
    if f.HttpFailure? && f.status == 403 then Thrown(ForbiddenMessage(e)) else f
  }

  /** What a caller of any of the three services can rely on: no failure
      it sees carries a 403 response (so `err.response` is absent for a
      refusal), and a failure is passed on unchanged exactly when it was not
      a 403. */
  lemma MappedFailureHasNoForbiddenResponse(e: Endpoint, f: Failure)
    ensures !(MapFailure(e, f).HttpFailure? && MapFailure(e, f).status == 403)
    ensures MapFailure(e, f) == f <==> !(f.HttpFailure? && f.status == 403)
  {
  }
}
