# TikTok monitoring dashboard: pagination and metrics proxies

This project models the core of the front end of the mixsoon TikTok monitoring
dashboard in Dafny:

- **The pagination bar** (`Pagination`). `getPageNumbers` chooses which zero-based page
  indices get a button, with `-1` as an ellipsis. The bar renders a Previous button,
  one control per entry and a Next button. `PageNumbers` keeps the source's loops and
  is proved equal to the specification function `Window`. `View` is the rendered bar.
- **`URLSearchParams`** (`FormUrlEncoded`). The query builder of the `/api/metrics` and
  `/api/metrics/hourly/tier` handlers and of `fetchDailyMetrics` is a class with `append`
  and `toString`. Serialization follows the
  application/x-www-form-urlencoded serializer of the WHATWG URL Standard, section 5.2.
  An independent reader, `ReadQuery`, splits a query string back into pairs. It is
  proved to recover every appended pair, in order, in encoded form.
- **Shared handler logic** (`Http`):
  - the truthiness test `if (x) searchParams.append(...)`;
  - the URL template `` `${base}${qs ? `?${qs}` : ""}` ``;
  - the final relay: 200 with the upstream JSON, or 500 with a fixed message.
- **`/api/metrics`** (`MetricsProxy`). Chooses the hourly or daily totals endpoint from
  `hours`, forwards one time parameter plus `tier` and `language`, and relays the answer.
- **`/api/metrics/hourly/tier`** (`HourlyTierProxy`). Forwards `hours` and `language`,
  without validating them.
- **`fetchDailyMetrics`** (`MetricsClient`). The browser-side call to `/api/metrics` and
  the way its promise settles.
- **`/api/contents`** (`ContentsProxy`). Inserts `page` and `size` verbatim, with
  defaults, into the upstream URL.

Inputs from outside the code become parameters:

- The request is its method and its query (`map<string, string>`; an absent key is
  `undefined`).
- The single upstream `fetch` is an input of type `Fetched`. Either the call rejects,
  or a status arrives with a body that parses as JSON (`Some`) or does not (`None`).
- A handler's result is an `Exchange`: the URL it fetched, if any, and the reply it sent.

## Model

| member | source | states |
|---|---|---|
| Pagination.PageNumbers | src/components/Pagination.tsx:15-48 | the pushes of the three branches build exactly `Window(currentPage, totalPages)` |
| Pagination.SmallWindow | src/components/Pagination.tsx:19-22 | with at most five pages the list is `0, 1, …, totalPages - 1` (empty for no pages) and holds no ellipsis |
| Pagination.LargeWindowEntries | src/components/Pagination.tsx:23-45 | with more than five pages, the list entry by entry: `0 1 2 3 … last` near the start, `0 … last-3 last-2 last-1 last` near the end, `0 … c-1 c c+1 … last` otherwise |
| Pagination.LargeWindowShape | src/components/Pagination.tsx:23-45 | with more than five pages the list has 7 entries in the middle case and 6 otherwise, and starts with page 0 and ends with the last page |
| Pagination.WindowBounds | src/components/Pagination.tsx:15-48 | at most seven entries, each an ellipsis or a page index in `[0, totalPages)` |
| Pagination.WindowIncreasing | src/components/Pagination.tsx:15-48 | apart from ellipses, the page indices strictly increase |
| Pagination.CurrentPageShown | src/components/Pagination.tsx:15-48 | a valid current page is always in the list |
| Pagination.EllipsisPlacement | src/components/Pagination.tsx:28-43 | an ellipsis is never first or last, never next to another, and sits between a smaller and a larger page |
| Pagination.EmptyEllipsis | src/components/Pagination.tsx:36-44 | an ellipsis between two consecutive pages occurs exactly when `totalPages > 5` and `currentPage == totalPages - 3` |
| Pagination.ControlFor | src/components/Pagination.tsx:61-78 | an entry of `-1` renders as an ellipsis and nothing else does; any other entry is a button labelled `page + 1`, highlighted exactly when it is the current page, that asks for `page` |
| Pagination.Controls | src/components/Pagination.tsx:61-78 | one control per window entry, in the order of the entries |
| Pagination.View | src/components/Pagination.tsx:50-88 | the bar is Previous first, Next last, and between them exactly the control of each window entry, in order |
| Pagination.NavigationButtons | src/components/Pagination.tsx:50-88 | Previous is disabled exactly at page 0 and otherwise asks for `currentPage - 1`; Next is disabled exactly at `totalPages - 1` and otherwise asks for `currentPage + 1` |
| Pagination.NumberedButtons | src/components/Pagination.tsx:61-78 | each numbered button shows `page + 1` and asks for `page`; an ellipsis asks for nothing |
| Pagination.NavigationStaysInRange | src/components/Pagination.tsx:50-88 | from a valid current page every enabled control asks for a page in `[0, totalPages)` |
| Pagination.OneActiveButton | src/components/Pagination.tsx:61-78 | from a valid current page exactly one button is highlighted, and it is the current page's |
| Pagination.NextEnabledWithoutPages | src/components/Pagination.tsx:80-82 | with zero pages the bar is Previous (disabled) and Next, and Next stays enabled and asks for page 1 |
| FormUrlEncoded.Encode | src/pages/api/metrics.ts:30-41 | the encoding is never shorter than its input, uses only unreserved characters, `+` and `%`, and leaves strings of unreserved characters unchanged |
| FormUrlEncoded.Serialize | src/pages/api/metrics.ts:39-41 | the serialized query is empty exactly when no pair was appended |
| FormUrlEncoded.SearchParams.constructor | src/pages/api/metrics.ts:30 | a new accumulator holds no pairs |
| FormUrlEncoded.SearchParams.Append | src/pages/api/metrics.ts:32 | `append` adds the pair at the end and changes nothing else |
| FormUrlEncoded.SearchParams.ToString | src/pages/api/metrics.ts:39-41 | `toString` is empty exactly when no pair was appended |
| FormUrlEncoded.ReadBack | src/pages/api/metrics.ts:30-41 | reading the serialized query back at `&` and `=` gives every appended pair, in order, with its name and value encoded |
| FormUrlEncoded.EncodedVerbatim | src/pages/api/metrics.ts:30-41 | pairs whose names and values need no escaping read back unchanged |
| FormUrlEncoded.EncodedNames | src/pages/api/metrics.ts:30-41 | names that need no escaping, as all four parameter names do, read back unchanged |
| Http.Relay | src/pages/api/metrics.ts:43-54 | the reply is 200 with the upstream body exactly when the upstream answered ok (200-299) with JSON; otherwise it is 500 with the fixed error message |
| Http.ForwardedExactly | src/pages/api/metrics/hourly/tier.ts:16-17 | a pair is appended exactly when its name is listed and the query value is present and non-empty, and the pair carries that value |
| Http.ForwardedInOrder | src/pages/api/metrics/hourly/tier.ts:16-17 | the appended pairs follow the order of the guarded appends |
| Http.ForwardedEmpty | src/pages/api/metrics/hourly/tier.ts:16-21 | nothing is appended exactly when no listed value is truthy |
| Http.ForwardedReadsOnly | src/pages/api/metrics/hourly/tier.ts:13-17 | queries that agree on the listed names append the same pairs |
| Http.Url | src/pages/api/metrics.ts:39-41 | the URL starts with the base; it is the bare base when the query is empty, and otherwise the base, `?` and the query, nothing more |
| Http.ForwardedNamesPlain | src/pages/api/metrics/hourly/tier.ts:16-17 | when every listed name needs no escaping, each forwarded pair keeps its name once encoded |
| Http.UrlIsBase | src/pages/api/metrics.ts:39-41 | the URL template yields the bare base exactly when the query string is empty |
| Http.UrlSplit | src/pages/api/metrics.ts:39-41 | for a base without `?` and a query without `#`, reading the URL at its first `?` (and the query up to a `#`) gives back the base and the query string |
| Http.UrlFragment | src/pages/api/contents.ts:15 | a `#` inside the query string ends the query: the URL reads back as the base and only what precedes the `#` |
| Http.UrlReadBack | src/pages/api/metrics.ts:39-41 | the URL holds `?` exactly when a pair was appended, and reads back as the base followed by the appended pairs, encoded and in order |
| MetricsProxy.BuildUrl | src/pages/api/metrics.ts:22-41 | the `isHourly` choice, the guarded appends and the template give `Url(BaseUrl(q), Serialize(Params(q)))` |
| MetricsProxy.Handle | src/pages/api/metrics.ts:13-55 | for any method other than GET: 405 with "Method not allowed" and no fetch; for GET: the fetch of the upstream URL, then the relay |
| MetricsProxy.EndpointChoice | src/pages/api/metrics.ts:25-28 | the hourly totals endpoint is used exactly when `hours` is 24, 48 or 72; otherwise the daily one |
| MetricsProxy.ParamsExactly | src/pages/api/metrics.ts:30-37 | `hours` is forwarded exactly in hourly mode, `days` exactly when truthy outside it, `tier` and `language` exactly when truthy, each with its request value; nothing else is forwarded |
| MetricsProxy.ParamsByMode | src/pages/api/metrics.ts:30-37 | the pairs are the time parameter of the mode, then `tier`, then `language`, each when truthy |
| MetricsProxy.OneTimeParam | src/pages/api/metrics.ts:31-35 | hourly mode never forwards `days`; daily mode never forwards `hours` |
| MetricsProxy.UnlistedHoursDropped | src/pages/api/metrics.ts:25-35 | an `hours` value outside 24/48/72 selects the daily endpoint and is not forwarded |
| MetricsProxy.ParamsInOrder | src/pages/api/metrics.ts:30-37 | the forwarded pairs come in the order `hours`, `days`, `tier`, `language` |
| MetricsProxy.OtherParamsIgnored | src/pages/api/metrics.ts:22-41 | query parameters other than the four never change the upstream URL |
| MetricsProxy.UpstreamUrlReadBack | src/pages/api/metrics.ts:39-41 | the upstream URL is the bare endpoint exactly when nothing is forwarded; otherwise it reads back as the endpoint and the forwarded pairs, encoded and in order, each under its plain name (`hours`, `days`, `tier`, `language`) |
| HourlyTierProxy.BuildUrl | src/pages/api/metrics/hourly/tier.ts:13-21 | the guarded appends and the template give `Url(HOURLY_TIER, Serialize(Params(q)))` |
| HourlyTierProxy.Handle | src/pages/api/metrics/hourly/tier.ts:8-33 | 405 and no fetch for other methods; for GET the fetch of the upstream URL and the relay |
| HourlyTierProxy.ParamsExactly | src/pages/api/metrics/hourly/tier.ts:13-17 | `hours` and `language` are forwarded exactly when truthy, with their values; `tier`, `days` and everything else never are |
| HourlyTierProxy.ParamsInOrder | src/pages/api/metrics/hourly/tier.ts:16-17 | `hours` comes before `language` |
| HourlyTierProxy.UpstreamUrlReadBack | src/pages/api/metrics/hourly/tier.ts:19-21 | the target is always the hourly tier endpoint, bare exactly when nothing is forwarded, and its query reads back as the forwarded pairs, encoded, each under its plain name |
| HourlyTierProxy.HoursNotValidated | src/pages/api/metrics/hourly/tier.ts:13-16 | `hours=12` is forwarded by this handler, while `/api/metrics` drops it and uses the daily endpoint |
| MetricsClient.Decimal | src/api/metrics.ts:34 | the numeral of a status is a non-empty digit string without a leading zero |
| MetricsClient.BuildUrl | src/api/metrics.ts:21-30 | the four guarded appends on `params?.x` and the template give `Url("/api/metrics", Serialize(Params(params)))` |
| MetricsClient.FetchDailyMetrics | src/api/metrics.ts:18-38 | the URL fetched; the promise resolves with the JSON exactly when the status is ok and the body parses; a rejected fetch stays rejected; a non-ok status rejects with "API 호출 실패: " and the status; an unparsable body rejects |
| MetricsClient.ParamsExactly | src/api/metrics.ts:23-26 | each field is sent exactly when given and non-empty, with its value; nothing else is sent |
| MetricsClient.ParamsInOrder | src/api/metrics.ts:23-26 | fields are sent in the order `days`, `hours`, `tier`, `language` |
| MetricsClient.NothingAppended | src/api/metrics.ts:23-26 | nothing is appended exactly when no field is given non-empty |
| MetricsClient.BareEndpoint | src/api/metrics.ts:28-30 | the URL is bare `/api/metrics` exactly when no field is given non-empty |
| MetricsClient.AbsentParams | src/api/metrics.ts:18-30 | calling without `params` fetches bare `/api/metrics` |
| MetricsClient.RequestUrlReadBack | src/api/metrics.ts:28-30 | the URL reads back as `/api/metrics` and the sent pairs, encoded and in order, each under its plain name |
| MetricsClient.BothTimeFieldsSent | src/api/metrics.ts:23-24 | given `days=7` and `hours=24`, the client sends both, and `/api/metrics` then forwards only `hours=24` |
| MetricsClient.FailureMessage | src/api/metrics.ts:34 | the rejection message is the fixed prefix "API 호출 실패: " followed by a non-empty run of digits |
| MetricsClient.DecimalRoundTrip | src/api/metrics.ts:34 | the numeral of a status denotes that status |
| MetricsClient.FailureMessageCarriesStatus | src/api/metrics.ts:33-35 | the rejection message is the fixed prefix followed by digits that denote the status |
| ContentsProxy.Handle | src/pages/api/contents.ts:4-28 | 405 and no fetch for methods other than GET; for GET the fetch of the template URL; 200 with the body exactly when the answer is ok with JSON, otherwise 500 with the fixed message |
| ContentsProxy.UpstreamUrl | src/pages/api/contents.ts:13-15 | the URL starts with the contents endpoint followed by `?page=` |
| ContentsProxy.UpstreamUrlIsUrl | src/pages/api/contents.ts:13-15 | the template is the contents endpoint, `?`, and `page=…&size=…` |
| ContentsProxy.UpstreamUrlReadBack | src/pages/api/contents.ts:13-15 | when neither value holds `&` or `#`, the URL reads back as the contents endpoint with exactly `page` then `size`: the request values when present, even empty, else "0" and "9" |
| ContentsProxy.EmptyPageKept | src/pages/api/contents.ts:13 | an empty `page` is kept, not replaced by the default |
| ContentsProxy.PageValueInjects | src/pages/api/contents.ts:15 | since nothing is encoded, a `page` of `v&size=w` (no `&` or `#` in `v`, `w`) reads back as three pairs: `page=v`, an injected `size=w`, then the handler's own `size=9` |
| ContentsProxy.FragmentCutsQuery | src/pages/api/contents.ts:13-15 | since nothing is encoded, a `page` of `v#x` turns the rest of the URL into a fragment: the upstream query reads back as `page=v` alone, and `size` is lost |
| ContentsProxy.OtherParamsIgnored | src/pages/api/contents.ts:13-15 | only `page` and `size` affect the upstream URL |

## Left out

- Fetching, JSON parsing and `console.error` are not modelled as I/O. The upstream outcome is an input, and the JSON body is relayed as an opaque value. The thrown `Error` inside the handlers is not modelled, because the handlers catch it and reply with the fixed message.
- A query value that is an array (`string[]`, a repeated parameter) is not modelled. Each query value is a single string.
- `req.method` being `undefined` is not modelled separately. It behaves as any method other than GET.
- Decoding the query string is left out, and so is the full WHATWG URL parser. `ReadQuery` and `ReadUrl` are structural readers: `ReadUrl` splits at the first `?` and ends the query at the first `#`, `ReadQuery` splits at `&` and the first `=`, and neither decodes. `/api/contents` inserts `page` and `size` verbatim, so a value holding `+` or `%xx` reaches an upstream that form-decodes its query as a different value (`+` becomes a space); `ContentsProxy.UpstreamUrlReadBack` recovers the request values only for the non-decoding reader.
- Characters outside the Unicode scalar range cannot occur in the model's strings. JavaScript's lone surrogates, which the serializer replaces with U+FFFD, are therefore not modelled.
- The JSX markup, CSS classes and icons of the pagination bar are left out. Only the controls, their enabled state, their labels and what they hand to `onPageChange` are kept. Non-integer page numbers are not modelled.
- `DailyMetricsResponse` and the other response shapes are types only. They carry no behaviour and appear only as the opaque `Json`.
- Concurrent requests across series, discarding stale responses, an "ALL" filter sentinel and a round trip of filter state through the page URL have no code in the modelled files. No modelled file treats any value (such as "ALL") as a sentinel: a parameter that a file forwards is forwarded whatever its non-empty value (percent-encoded everywhere but in `/api/contents`), except that `/api/metrics` accepts only 24, 48 and 72 for `hours`.
- No modelled file limits a metrics call to one of `days` and `hours` on the client side: `fetchDailyMetrics` sends both when given both (src/api/metrics.ts:23-24). Only the `/api/metrics` handler keeps one (src/pages/api/metrics.ts:31-35); see `MetricsClient.BothTimeFieldsSent`.
- The daily tier proxy is not part of this model.
