/**
 * The `/api/metrics` route handler: it rejects methods other than GET, picks the
 * hourly or the daily totals endpoint from `hours`, forwards one time parameter and
 * the truthy `tier` and `language`, and relays the upstream answer.
 */
module MetricsProxy {
  import opened Wrappers
  import opened FormUrlEncoded
  import opened Http

  const HOURLY_TOTAL := ORIGIN + "/metrics/hourly/total"
  const DAILY_TOTAL := ORIGIN + "/metrics/daily/total"

  /** The `hours` values that select the hourly endpoint. */
  const HOURLY_WINDOWS := ["72", "48", "24"]

  /** The parameter names forwarded, in the order they are appended. */
  const ORDER := ["hours", "days", "tier", "language"]

  /** `isHourly`: `hours` is truthy and one of the listed windows. */
  predicate IsHourly(query: map<string, string>) {
    Truthy(query, "hours") && query["hours"] in HOURLY_WINDOWS
  }

  function BaseUrl(query: map<string, string>): string {
    if IsHourly(query) then HOURLY_TOTAL else DAILY_TOTAL
  }

  /**
   * The query as the appends see it: in hourly mode `days` is ignored, otherwise
   * `hours` is.
   */
  function Effective(query: map<string, string>): map<string, string> {
    if IsHourly(query) then query - {"days"} else query - {"hours"}
  }

  /** The pairs the handler appends: the truthy parameters of the effective query, in order. */
  function Params(query: map<string, string>): seq<Param> {
    Forwarded(Effective(query), ORDER)
  }

  function UpstreamUrl(query: map<string, string>): string {
    Url(BaseUrl(query), Serialize(Params(query)))
  }

  /** The `isHourly` / `baseUrl` choice, the `searchParams` appends and the URL template. */
  method BuildUrl(query: map<string, string>) returns (url: string)
    ensures url == Url(BaseUrl(query), Serialize(Params(query)))
  {
    var isHourly := "hours" in query && query["hours"] != "" && query["hours"] in HOURLY_WINDOWS;
    var baseUrl := if isHourly then HOURLY_TOTAL else DAILY_TOTAL;
    ParamsByMode(query);
    var searchParams := new SearchParams();
    if isHourly && "hours" in query && query["hours"] != "" {
      searchParams.Append("hours", query["hours"]);
    } else if "days" in query && query["days"] != "" {
      searchParams.Append("days", query["days"]);
    }
    ghost var time := if isHourly then [Param("hours", query["hours"])] else Pick(query, "days");
    assert searchParams.entries == time;
    if "tier" in query && query["tier"] != "" {
      searchParams.Append("tier", query["tier"]);
    }
    assert searchParams.entries == time + Pick(query, "tier");
    if "language" in query && query["language"] != "" {
      searchParams.Append("language", query["language"]);
    }
    assert searchParams.entries == Params(query);
    var qs := searchParams.ToString();
    url := baseUrl + (if qs != "" then "?" + qs else "");
  }

  /** The handler: 405 for other methods, otherwise the upstream call and its relay. */
  method Handle(req: Request, upstream: Fetched) returns (ex: Exchange)
    ensures req.verb != GET ==> ex == REJECTED
    ensures req.verb == GET ==> ex == Exchange(Some(UpstreamUrl(req.query)), Relay(upstream))
  {
    if req.verb != GET {
      return REJECTED;
    }
    var url := BuildUrl(req.query);
    ex := Exchange(Some(url), Relay(upstream));
  }

  /** The hourly endpoint is chosen exactly for `hours` of 24, 48 or 72. */
  lemma EndpointChoice(query: map<string, string>)
    ensures BaseUrl(query) == HOURLY_TOTAL <==>
      "hours" in query && (query["hours"] == "24" || query["hours"] == "48" || query["hours"] == "72")
    ensures BaseUrl(query) == HOURLY_TOTAL || BaseUrl(query) == DAILY_TOTAL
  {
    assert HOURLY_TOTAL[|ORIGIN| + 9] == 'h' && DAILY_TOTAL[|ORIGIN| + 9] == 'd';
  }

  /**
   * The pairs forwarded: `hours` exactly in hourly mode, `days` exactly when truthy
   * outside hourly mode, `tier` and `language` exactly when truthy, each with the
   * request's value, and nothing else.
   */
  lemma ParamsExactly(query: map<string, string>, p: Param)
    ensures p in Params(query) <==>
      (p.name == "hours" && IsHourly(query) && p.value == query["hours"]) ||
      (p.name == "days" && !IsHourly(query) && Truthy(query, "days") && p.value == query["days"]) ||
      ((p.name == "tier" || p.name == "language") && Truthy(query, p.name) && p.value == query[p.name])
  {
    ForwardedExactly(Effective(query), ORDER, p);
  }

  /**
   * The pairs by mode: in hourly mode `hours`, otherwise `days` when truthy; then
   * `tier` and `language` when truthy.
   */
  lemma ParamsByMode(query: map<string, string>)
    ensures Params(query) ==
      (if IsHourly(query) then [Param("hours", query["hours"])] else Pick(query, "days")) +
      Pick(query, "tier") + Pick(query, "language")
  {
    var effective := Effective(query);
    ForwardedFour(effective, ORDER);
    EffectivePicks(query);
  }

  /** What each guarded append sees of the effective query. */
  lemma EffectivePicks(query: map<string, string>)
    ensures Pick(Effective(query), "hours") + Pick(Effective(query), "days") ==
      (if IsHourly(query) then [Param("hours", query["hours"])] else Pick(query, "days"))
    ensures Pick(Effective(query), "tier") == Pick(query, "tier")
    ensures Pick(Effective(query), "language") == Pick(query, "language")
  {
  }

  /** Hourly mode never carries `days`; daily mode never carries `hours`. */
  lemma OneTimeParam(query: map<string, string>)
    ensures IsHourly(query) ==> forall p <- Params(query) :: p.name != "days"
    ensures !IsHourly(query) ==> forall p <- Params(query) :: p.name != "hours"
  {
    forall p <- Params(query) {
      ParamsExactly(query, p);
    }
  }

  /** An `hours` value outside the windows is dropped and the daily endpoint is used. */
  lemma UnlistedHoursDropped(query: map<string, string>)
    requires Truthy(query, "hours") && query["hours"] !in HOURLY_WINDOWS
    ensures BaseUrl(query) == DAILY_TOTAL
    ensures forall p <- Params(query) :: p.name != "hours"
  {
    OneTimeParam(query);
  }

  /** The time parameter comes first, then `tier`, then `language`. */
  lemma ParamsInOrder(query: map<string, string>)
    ensures InOrder(Params(query), ORDER)
  {
    ForwardedInOrder(Effective(query), ORDER);
  }

  /** Query parameters other than the four are never read. */
  lemma OtherParamsIgnored(q1: map<string, string>, q2: map<string, string>)
    requires forall n <- ORDER :: (n in q1 <==> n in q2) && (n in q1 ==> q1[n] == q2[n])
    ensures UpstreamUrl(q1) == UpstreamUrl(q2)
  {
    assert "hours" in ORDER;
    assert IsHourly(q1) == IsHourly(q2);
    ForwardedReadsOnly(Effective(q1), Effective(q2), ORDER);
  }

  /**
   * The upstream URL is the bare endpoint exactly when nothing was appended; otherwise
   * it is endpoint `?` query, and reading its query back gives the appended pairs, in
   * order, with their values encoded.
   */
  lemma UpstreamUrlReadBack(query: map<string, string>)
    ensures UpstreamUrl(query) == BaseUrl(query) <==> Params(query) == []
    ensures ReadUrl(UpstreamUrl(query)) == (BaseUrl(query), Serialize(Params(query)))
    ensures ReadQuery(ReadUrl(UpstreamUrl(query)).1) == Encoded(Params(query))
    ensures forall i :: 0 <= i < |Params(query)| ==> ReadQuery(ReadUrl(UpstreamUrl(query)).1)[i].name == Params(query)[i].name
  {
    BasesWithoutQuery();
    UrlReadBack(BaseUrl(query), Params(query));
    NamesPlain();
    ForwardedNamesPlain(Effective(query), ORDER);
  }

  /** Neither endpoint holds a `?`. */
  lemma BasesWithoutQuery()
    ensures '?' !in HOURLY_TOTAL && '?' !in DAILY_TOTAL
  {
    assert '?' !in ORIGIN;
  }

  /** Every forwarded name is written in lower-case letters only. */
  lemma NamesPlain()
    ensures forall n <- ORDER :: AllUnreserved(n)
  {
  }
}
