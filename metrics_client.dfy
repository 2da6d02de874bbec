/**
 * `fetchDailyMetrics`, the browser-side call to `/api/metrics`: it appends each of
 * `days`, `hours`, `tier` and `language` that is given and non-empty, fetches the
 * resulting URL, and rejects with a message carrying the status when the response is
 * not ok.
 */
module MetricsClient {
  import opened Wrappers
  import opened FormUrlEncoded
  import opened Http
  import MetricsProxy

  /** The optional filter fields of a call. */
  datatype MetricsParams = MetricsParams(
    days: Option<string>, hours: Option<string>, tier: Option<string>, language: Option<string>)

  /** Why the returned promise rejects. */
  datatype ClientError = NetworkError | HttpError(message: string) | InvalidJson

  /** How the returned promise settles. */
  datatype Outcome = Resolved(data: Json) | Rejected(error: ClientError)

  const ENDPOINT := "/api/metrics"

  /** The fields appended, in order. */
  const FIELDS := ["days", "hours", "tier", "language"]

  const FAILURE_PREFIX := "API 호출 실패: "

  /** `params?.<name>`: undefined when `params` itself is undefined. */
  function FieldOf(params: Option<MetricsParams>, name: string): Option<string> {
    if params.None? then None
    else if name == "days" then params.value.days
    else if name == "hours" then params.value.hours
    else if name == "tier" then params.value.tier
    else if name == "language" then params.value.language
    else None
  }

  /** The defined fields of `params`, as query parameters. */
  function AsQuery(params: Option<MetricsParams>): map<string, string> {
    map name | name in FIELDS && FieldOf(params, name).Some? :: FieldOf(params, name).value
  }

  /** The pairs the client appends. */
  function Params(params: Option<MetricsParams>): seq<Param> {
    Forwarded(AsQuery(params), FIELDS)
  }

  function RequestUrl(params: Option<MetricsParams>): string {
    Url(ENDPOINT, Serialize(Params(params)))
  }

  /** The decimal numeral JavaScript writes for a non-negative integer. */
  function Decimal(n: nat): (s: string)
    ensures s != []
    ensures forall k :: 0 <= k < |s| ==> '0' <= s[k] <= '9'
    ensures s[0] == '0' ==> n == 0 && s == "0"
  {
    if n < 10 then [('0' as int + n) as char]
    else Decimal(n / 10) + [('0' as int + n % 10) as char]
  }

  /** The number a string of decimal digits denotes. */
  function DigitsValue(s: string): int {
    if s == [] then 0 else DigitsValue(s[..|s| - 1]) * 10 + (s[|s| - 1] as int - '0' as int)
  }

  /** The message of the error thrown for a response that is not ok. */
  function FailureMessage(status: nat): (m: string)
    ensures |m| > |FAILURE_PREFIX| && m[..|FAILURE_PREFIX|] == FAILURE_PREFIX
    ensures forall k :: |FAILURE_PREFIX| <= k < |m| ==> '0' <= m[k] <= '9'
  {
    FAILURE_PREFIX + Decimal(status)
  }

  /** The query assembly and the URL template of `fetchDailyMetrics`. */
  method BuildUrl(params: Option<MetricsParams>) returns (url: string)
    ensures url == Url(ENDPOINT, Serialize(Params(params)))
  {
    ghost var query := AsQuery(params);
    ForwardedFour(query, FIELDS);
    AsQueryPicks(params);
    var searchParams := new SearchParams();
    if params.Some? && params.value.days.Some? && params.value.days.value != "" {
      searchParams.Append("days", params.value.days.value);
    }
    assert searchParams.entries == Pick(query, "days");
    if params.Some? && params.value.hours.Some? && params.value.hours.value != "" {
      searchParams.Append("hours", params.value.hours.value);
    }
    assert searchParams.entries == Pick(query, "days") + Pick(query, "hours");
    if params.Some? && params.value.tier.Some? && params.value.tier.value != "" {
      searchParams.Append("tier", params.value.tier.value);
    }
    assert searchParams.entries == Pick(query, "days") + Pick(query, "hours") + Pick(query, "tier");
    if params.Some? && params.value.language.Some? && params.value.language.value != "" {
      searchParams.Append("language", params.value.language.value);
    }
    assert searchParams.entries == Forwarded(query, FIELDS);
    var qs := searchParams.ToString();
    url := ENDPOINT + (if qs != "" then "?" + qs else "");
  }

  /**
   * `fetchDailyMetrics`: the URL fetched and how the promise settles, given how the
   * fetch of that URL turned out.
   */
  method FetchDailyMetrics(params: Option<MetricsParams>, upstream: Fetched) returns (url: string, outcome: Outcome)
    ensures url == RequestUrl(params)
    ensures outcome.Resolved? <==> upstream.Answered? && Ok(upstream.status) && upstream.body.Some?
    ensures outcome.Resolved? ==> outcome.data == upstream.body.value
    ensures upstream.NetworkFailure? ==> outcome == Rejected(NetworkError)
    ensures upstream.Answered? && !Ok(upstream.status) ==>
      outcome == Rejected(HttpError(FailureMessage(upstream.status)))
    ensures upstream.Answered? && Ok(upstream.status) && upstream.body.None? ==> outcome == Rejected(InvalidJson)
  {
    url := BuildUrl(params);
    match upstream
    case NetworkFailure =>
      outcome := Rejected(NetworkError);
    case Answered(status, body) =>
      if !Ok(status) {
        outcome := Rejected(HttpError(FAILURE_PREFIX + Decimal(status)));
      } else if body.None? {
        outcome := Rejected(InvalidJson);
      } else {
        outcome := Resolved(body.value);
      }
  }

  /** Each field appears exactly when given and non-empty, with its value; nothing else appears. */
  lemma ParamsExactly(params: Option<MetricsParams>, p: Param)
    ensures p in Params(params) <==>
      p.name in FIELDS && FieldOf(params, p.name) == Some(p.value) && p.value != ""
  {
    ForwardedExactly(AsQuery(params), FIELDS, p);
  }

  /** The order is always `days`, `hours`, `tier`, `language`. */
  lemma ParamsInOrder(params: Option<MetricsParams>)
    ensures InOrder(Params(params), FIELDS)
  {
    ForwardedInOrder(AsQuery(params), FIELDS);
  }

  /** A field is truthy in the query exactly when it is given non-empty. */
  lemma AsQueryTruthy(params: Option<MetricsParams>, name: string)
    requires name in FIELDS
    ensures Truthy(AsQuery(params), name) <==> FieldOf(params, name).Some? && FieldOf(params, name).value != ""
    ensures Truthy(AsQuery(params), name) ==> AsQuery(params)[name] == FieldOf(params, name).value
  {
  }

  /** The guarded append of one field, seen through the query. */
  lemma AsQueryPick(params: Option<MetricsParams>, name: string)
    requires name in FIELDS
    ensures Pick(AsQuery(params), name) ==
      if FieldOf(params, name).Some? && FieldOf(params, name).value != "" then [Param(name, FieldOf(params, name).value)] else []
  {
    AsQueryTruthy(params, name);
  }

  /** What one guarded append adds for a field value. */
  function Appended(name: string, value: Option<string>): seq<Param> {
    if value.Some? && value.value != "" then [Param(name, value.value)] else []
  }

  /** The guarded appends of the four fields, seen through the query. */
  lemma AsQueryPicks(params: Option<MetricsParams>)
    ensures var query := AsQuery(params);
      Pick(query, "days") == Appended("days", if params.Some? then params.value.days else None) &&
      Pick(query, "hours") == Appended("hours", if params.Some? then params.value.hours else None) &&
      Pick(query, "tier") == Appended("tier", if params.Some? then params.value.tier else None) &&
      Pick(query, "language") == Appended("language", if params.Some? then params.value.language else None)
  {
    AsQueryPick(params, "days");
    AsQueryPick(params, "hours");
    AsQueryPick(params, "tier");
    AsQueryPick(params, "language");
  }

  /** Nothing is appended exactly when no field is given non-empty. */
  lemma NothingAppended(params: Option<MetricsParams>)
    ensures Params(params) == [] <==>
      forall n <- FIELDS :: FieldOf(params, n).None? || FieldOf(params, n) == Some("")
  {
    ForwardedEmpty(AsQuery(params), FIELDS);
    forall n <- FIELDS
      ensures !Truthy(AsQuery(params), n) <==> FieldOf(params, n).None? || FieldOf(params, n) == Some("")
    {
      AsQueryTruthy(params, n);
    }
  }

  /** The URL is the bare endpoint exactly when no field is given non-empty. */
  lemma BareEndpoint(params: Option<MetricsParams>)
    ensures RequestUrl(params) == ENDPOINT <==>
      forall n <- FIELDS :: FieldOf(params, n).None? || FieldOf(params, n) == Some("")
  {
    UrlIsBase(ENDPOINT, Serialize(Params(params)));
    NothingAppended(params);
  }

  /** An absent `params` object gives the bare endpoint. */
  lemma AbsentParams()
    ensures RequestUrl(None) == ENDPOINT
  {
    assert AsQuery(None) == map[];
    ForwardedEmpty(AsQuery(None), FIELDS);
  }

  /** Otherwise `?` follows the endpoint and the query reads back as the appended pairs, encoded. */
  lemma RequestUrlReadBack(params: Option<MetricsParams>)
    ensures ReadUrl(RequestUrl(params)).0 == ENDPOINT
    ensures ReadQuery(ReadUrl(RequestUrl(params)).1) == Encoded(Params(params))
    ensures forall i :: 0 <= i < |Params(params)| ==> ReadQuery(ReadUrl(RequestUrl(params)).1)[i].name == Params(params)[i].name
  {
    assert '?' !in ENDPOINT;
    UrlReadBack(ENDPOINT, Params(params));
    NamesPlain();
    ForwardedNamesPlain(AsQuery(params), FIELDS);
  }

  /**
   * The client does not make `days` and `hours` exclusive: given both, it sends both,
   * and it is the `/api/metrics` handler that then keeps `hours` only.
   */
  lemma BothTimeFieldsSent()
    ensures var params := Some(MetricsParams(Some("7"), Some("24"), None, None));
      Params(params) == [Param("days", "7"), Param("hours", "24")] &&
      MetricsProxy.Params(AsQuery(params)) == [Param("hours", "24")]
  {
    var params := Some(MetricsParams(Some("7"), Some("24"), None, None));
    var query := AsQuery(params);
    assert query == map["days" := "7", "hours" := "24"];
    BothTimeFieldsAppended(query);
    assert MetricsProxy.IsHourly(query);
    MetricsProxy.ParamsByMode(query);
  }

  /** Both time fields given: the client appends `days` and then `hours`. */
  lemma BothTimeFieldsAppended(query: map<string, string>)
    requires query == map["days" := "7", "hours" := "24"]
    ensures Forwarded(query, FIELDS) == [Param("days", "7"), Param("hours", "24")]
  {
    ForwardedFour(query, FIELDS);
  }

  /** The numeral of a status reads back as that status. */
  lemma {:induction false} DecimalRoundTrip(n: nat)
    ensures DigitsValue(Decimal(n)) == n
  {
    if n >= 10 {
      var s := Decimal(n);
      assert s[..|s| - 1] == Decimal(n / 10);
      DecimalRoundTrip(n / 10);
    }
  }

  /** The rejection message starts with the fixed prefix and ends with the status, which it determines. */
  lemma FailureMessageCarriesStatus(status: nat)
    ensures var m := FailureMessage(status);
      |m| > |FAILURE_PREFIX| && m[..|FAILURE_PREFIX|] == FAILURE_PREFIX &&
      DigitsValue(m[|FAILURE_PREFIX|..]) == status
  {
    var m := FailureMessage(status);
    assert m[|FAILURE_PREFIX|..] == Decimal(status);
    DecimalRoundTrip(status);
  }

  /** Every forwarded name is written in lower-case letters only. */
  lemma NamesPlain()
    ensures forall n <- FIELDS :: AllUnreserved(n)
  {
  }
}
