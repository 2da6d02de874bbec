/**
 * The `/api/metrics/hourly/tier` route handler: it rejects methods other than GET,
 * forwards the truthy `hours` and `language` to the fixed hourly-tier endpoint, and
 * relays the upstream answer. Unlike the `/api/metrics` handler it does not check
 * `hours` against the 24/48/72 windows.
 */
module HourlyTierProxy {
  import opened Wrappers
  import opened FormUrlEncoded
  import opened Http
  import MetricsProxy

  const HOURLY_TIER := ORIGIN + "/metrics/hourly/tier"

  /** The parameter names forwarded, in the order they are appended. */
  const ORDER := ["hours", "language"]

  /** The pairs the handler appends. */
  function Params(query: map<string, string>): seq<Param> {
    Forwarded(query, ORDER)
  }

  function UpstreamUrl(query: map<string, string>): string {
    Url(HOURLY_TIER, Serialize(Params(query)))
  }

  /** The `searchParams` appends and the URL template. */
  method BuildUrl(query: map<string, string>) returns (url: string)
    ensures url == Url(HOURLY_TIER, Serialize(Params(query)))
  {
    var searchParams := new SearchParams();
    if "hours" in query && query["hours"] != "" {
      searchParams.Append("hours", query["hours"]);
    }
    ForwardedStep(query, ORDER, 1);
    assert searchParams.entries == Forwarded(query, ORDER[..1]);
    if "language" in query && query["language"] != "" {
      searchParams.Append("language", query["language"]);
    }
    ForwardedStep(query, ORDER, 2);
    assert ORDER[..2] == ORDER;
    assert searchParams.entries == Forwarded(query, ORDER);
    var qs := searchParams.ToString();
    url := HOURLY_TIER + (if qs != "" then "?" + qs else "");
  }

  /** The handler: 405 for other methods, otherwise the upstream call and its relay. */
  method Handle(req: Request, upstream: Fetched) returns (ex: Exchange)
    ensures req.verb != GET ==> ex == REJECTED
    ensures req.verb == GET ==> ex == Exchange(Some(UpstreamUrl(req.query)), Relay(upstream))
  {
    if req.verb != GET {
      return REJECTED;
    }
    var url := BuildUrl(req.query);
    ex := Exchange(Some(url), Relay(upstream));
  }

  /**
   * `hours` and `language` are forwarded exactly when truthy, with the request's value;
   * `tier`, `days` and every other parameter never are.
   */
  lemma ParamsExactly(query: map<string, string>, p: Param)
    ensures p in Params(query) <==>
      (p.name == "hours" || p.name == "language") && Truthy(query, p.name) && p.value == query[p.name]
  {
    ForwardedExactly(query, ORDER, p);
  }

  /** `hours` always comes before `language`. */
  lemma ParamsInOrder(query: map<string, string>)
    ensures InOrder(Params(query), ORDER)
  {
    ForwardedInOrder(query, ORDER);
  }

  /**
   * The target is always the hourly-tier endpoint, `?` appears exactly when a parameter
   * was appended, and the query reads back as the appended pairs, encoded.
   */
  lemma UpstreamUrlReadBack(query: map<string, string>)
    ensures UpstreamUrl(query) == HOURLY_TIER <==> Params(query) == []
    ensures ReadUrl(UpstreamUrl(query)).0 == HOURLY_TIER
    ensures ReadQuery(ReadUrl(UpstreamUrl(query)).1) == Encoded(Params(query))
    ensures forall i :: 0 <= i < |Params(query)| ==> ReadQuery(ReadUrl(UpstreamUrl(query)).1)[i].name == Params(query)[i].name
  {
    assert '?' !in HOURLY_TIER;
    UrlReadBack(HOURLY_TIER, Params(query));
    NamesPlain();
    ForwardedNamesPlain(query, ORDER);
  }

  /**
   * `hours` is not validated here: an `hours` of 12 is forwarded to the hourly-tier
   * endpoint, while the `/api/metrics` handler drops it and falls back to the daily
   * totals endpoint.
   */
  lemma HoursNotValidated()
    ensures var query := map["hours" := "12"];
      Params(query) == [Param("hours", "12")] &&
      MetricsProxy.Params(query) == [] &&
      MetricsProxy.BaseUrl(query) == MetricsProxy.DAILY_TOTAL
  {
    var query := map["hours" := "12"];
    assert !MetricsProxy.IsHourly(query);
    var pair := Param("hours", "12");
    ForwardedExactly(query, ORDER, pair);
    assert Params(query) == [pair] by {
      assert ORDER[..1][..0] == [] && ORDER[..1] == ORDER[..|ORDER| - 1];
    }
    ForwardedEmpty(MetricsProxy.Effective(query), MetricsProxy.ORDER);
  }

  /** Every forwarded name is written in lower-case letters only. */
  lemma NamesPlain()
    ensures forall n <- ORDER :: AllUnreserved(n)
  {
  }
}
