/**
 * What the API route handlers and the client share: an abstract request (its method
 * and its query parameters), the outcome of the one upstream `fetch`, the reply a
 * handler sends, the "truthy parameter" test the handlers apply before forwarding a
 * parameter, and the `base` / `base?query` URL template.
 */
module Http {
  import opened Wrappers
  import opened Seqs
  import opened FormUrlEncoded

  /** A JSON document, relayed as it is. */
  datatype Json = Json(text: string)

  /** An incoming request: its method and `req.query`, where an absent key is `undefined`. */
  datatype Request = Request(verb: string, query: map<string, string>)

  /**
   * The outcome of `fetch(url)` followed, on an ok status, by `response.json()`:
   * either the call itself rejects, or a status arrives with a body that parses
   * (`Some`) or does not (`None`).
   */
  datatype Fetched = NetworkFailure | Answered(status: nat, body: Option<Json>)

  /** `Response.ok`: the status is in the range 200 to 299. */
  predicate Ok(status: nat) {
    200 <= status <= 299
  }

  datatype ReplyBody = Relayed(json: Json) | Failure(error: string)

  datatype Reply = Reply(status: nat, body: ReplyBody)

  /** One handled request: the URL fetched upstream, if any, and the reply sent. */
  datatype Exchange = Exchange(upstreamUrl: Option<string>, reply: Reply)

  const GET := "GET"
  const METHOD_NOT_ALLOWED := "Method not allowed"
  const SERVER_ERROR := "서버 에러가 발생했습니다."
  const HOST := "https://www.mixsoon-tiktok-monitoring.site"
  const ORIGIN := HOST + "/api"

  /** The reply to any method other than GET: nothing is fetched. */
  const REJECTED := Exchange(None, Reply(405, Failure(METHOD_NOT_ALLOWED)))

  /** JavaScript truthiness of `req.query[name]`: present and not the empty string. */
  predicate Truthy(query: map<string, string>, name: string) {
    name in query && query[name] != ""
  }

  /** The pair for `name` when its value is truthy: what one guarded `append` adds. */
  function Pick(query: map<string, string>, name: string): seq<Param> {
    if Truthy(query, name) then [Param(name, query[name])] else []
  }

  /**
   * The pairs `(name, query[name])` for the names, in order, whose value is truthy:
   * what a run of guarded `append`s leaves in the accumulator.
   */
  function Forwarded(query: map<string, string>, names: seq<string>): (ps: seq<Param>)
    ensures |ps| <= |names|
  {
    if names == [] then []
    else Forwarded(query, names[..|names| - 1]) + Pick(query, names[|names| - 1])
  }

  /** No name occurs twice. */
  predicate Distinct(names: seq<string>) {
    forall i, j :: 0 <= i < j < |names| ==> names[i] != names[j]
  }

  /** The names of `ps` all occur in `order`, and `ps` lists them in that order. */
  predicate InOrder(ps: seq<Param>, order: seq<string>) {
    (forall i :: 0 <= i < |ps| ==> ps[i].name in order) &&
    (forall i, j :: 0 <= i < j < |ps| ==> IndexOf(order, ps[i].name) < IndexOf(order, ps[j].name))
  }

  /**
   * The relay step every route handler ends with: 200 with the upstream body when the
   * upstream answered ok with JSON, and 500 with the fixed message when the call
   * rejected, the status was not ok, or the body was not JSON.
   */
  function Relay(upstream: Fetched): (reply: Reply)
    ensures reply.status == 200 || reply.status == 500
    ensures reply.status == 200 <==> upstream.Answered? && Ok(upstream.status) && upstream.body.Some?
    ensures reply.status == 200 ==> reply.body == Relayed(upstream.body.value)
    ensures reply.status == 500 ==> reply.body == Failure(SERVER_ERROR)
  {
    match upstream
    case NetworkFailure => Reply(500, Failure(SERVER_ERROR))
    case Answered(status, body) =>
      if !Ok(status) then Reply(500, Failure(SERVER_ERROR))
      else if body.None? then Reply(500, Failure(SERVER_ERROR))
      else Reply(200, Relayed(body.value))
  }

  /** The URL template `${base}${query ? `?${query}` : ""}`. */
  function Url(base: string, query: string): (url: string)
    ensures |url| >= |base| && url[..|base|] == base
    ensures query == "" ==> url == base
    ensures query != "" ==> |url| == |base| + 1 + |query| && url[|base|] == '?' && url[|base| + 1..] == query
  {
    base + (if query != "" then "?" + query else "")
  }

  /**
   * A URL read back as the URL parser splits it: the part before the first `?`, and
   * the query after it, which ends where a `#` starts the fragment.
   */
  function ReadUrl(url: string): (string, string) {
    var i := IndexOf(url, '?');
    if i == |url| then (url, "") else (url[..i], BeforeFragment(url[i + 1..]))
  }

  /** The text before the first `#`, or all of it when there is none. */
  function BeforeFragment(s: string): (t: string)
    ensures '#' !in t
    ensures '#' !in s ==> t == s
  {
    s[..IndexOf(s, '#')]
  }

  /** Forwarding the first `k` names is forwarding the first `k - 1` and then picking the `k`-th. */
  lemma ForwardedStep(query: map<string, string>, names: seq<string>, k: nat)
    requires 0 < k <= |names|
    ensures Forwarded(query, names[..k]) == Forwarded(query, names[..k - 1]) + Pick(query, names[k - 1])
  {
    assert names[..k][..k - 1] == names[..k - 1];
  }

  /** Forwarding four names is picking each in turn. */
  lemma ForwardedFour(query: map<string, string>, names: seq<string>)
    requires |names| == 4
    ensures Forwarded(query, names) ==
      Pick(query, names[0]) + Pick(query, names[1]) + Pick(query, names[2]) + Pick(query, names[3])
  {
    var n3 := names[..3];
    var n2 := n3[..2];
    var n1 := n2[..1];
    assert n3 == names[..|names| - 1] && n2 == n3[..|n3| - 1] && n1 == n2[..|n2| - 1] && n1[..0] == [];
    assert n1[0] == names[0] && n2[1] == names[1] && n3[2] == names[2];
    assert Forwarded(query, n1) == Pick(query, names[0]);
    assert Forwarded(query, n2) == Forwarded(query, n1) + Pick(query, names[1]);
    assert Forwarded(query, n3) == Forwarded(query, n2) + Pick(query, names[2]);
    assert Forwarded(query, names) == Forwarded(query, n3) + Pick(query, names[3]);
  }

  /** A pair is forwarded exactly when its name is listed and its value is the truthy query value. */
  lemma {:induction false} ForwardedExactly(query: map<string, string>, names: seq<string>, p: Param)
    ensures p in Forwarded(query, names) <==> p.name in names && Truthy(query, p.name) && p.value == query[p.name]
  {
    if names != [] {
      var init := names[..|names| - 1];
      ForwardedExactly(query, init, p);
      assert names == init + [names[|names| - 1]];
    }
  }

  /** Listed names that need no escaping are forwarded under those same names once encoded. */
  lemma ForwardedNamesPlain(query: map<string, string>, names: seq<string>)
    requires forall n <- names :: AllUnreserved(n)
    ensures forall i :: 0 <= i < |Forwarded(query, names)| ==>
      Encoded(Forwarded(query, names))[i].name == Forwarded(query, names)[i].name
  {
    var ps := Forwarded(query, names);
    forall p | p in ps
      ensures AllUnreserved(p.name)
    {
      ForwardedExactly(query, names, p);
    }
    EncodedNames(ps);
  }

  /** Forwarding keeps the order of the listed names. */
  lemma {:induction false} ForwardedInOrder(query: map<string, string>, names: seq<string>)
    requires Distinct(names)
    ensures InOrder(Forwarded(query, names), names)
  {
    if names != [] {
      var n := |names| - 1;
      var init := names[..n];
      var front := Forwarded(query, init);
      var ps := Forwarded(query, names);
      ForwardedInOrder(query, init);
      forall i | 0 <= i < |front|
        ensures front[i].name in init
        ensures IndexOf(names, front[i].name) == IndexOf(init, front[i].name) < n
      {
        assert front[i] in front;
        ForwardedExactly(query, init, front[i]);
        IndexOfPrefix(names, n, front[i].name);
      }
      if Truthy(query, names[n]) {
        assert names[n] !in init;
        assert names[..n] == init;
        IndexOfUnique(names, names[n], n);
        assert ps[|ps| - 1].name == names[n];
      }
      assert forall i :: 0 <= i < |front| ==> ps[i] == front[i];
    }
  }

  /** Nothing is forwarded exactly when none of the listed names has a truthy value. */
  lemma {:induction false} ForwardedEmpty(query: map<string, string>, names: seq<string>)
    ensures Forwarded(query, names) == [] <==> forall n <- names :: !Truthy(query, n)
  {
    if names != [] {
      var init := names[..|names| - 1];
      ForwardedEmpty(query, init);
      assert names == init + [names[|names| - 1]];
    }
  }

  /** Only the listed names are read: queries that agree on them forward the same pairs. */
  lemma {:induction false} ForwardedReadsOnly(q1: map<string, string>, q2: map<string, string>, names: seq<string>)
    requires forall n <- names :: Truthy(q1, n) == Truthy(q2, n) && (Truthy(q1, n) ==> q1[n] == q2[n])
    ensures Forwarded(q1, names) == Forwarded(q2, names)
  {
    if names != [] {
      assert names[|names| - 1] in names;
      ForwardedReadsOnly(q1, q2, names[..|names| - 1]);
    }
  }

  /** The template leaves the base alone exactly when the query is empty. */
  lemma UrlIsBase(base: string, query: string)
    ensures Url(base, query) == base <==> query == ""
  {
    assert |Url(base, query)| == |base| + (if query != "" then 1 + |query| else 0);
  }

  /** After a base without `?`, a non-empty query is read up to its first `#`. */
  lemma UrlQuery(base: string, query: string)
    requires '?' !in base && query != ""
    ensures ReadUrl(Url(base, query)) == (base, BeforeFragment(query))
  {
    var url := Url(base, query);
    assert url == base + ['?'] + query;
    IndexOfAfter(base, '?', query);
    assert url[..|base|] == base;
    assert url[|base| + 1..] == query;
  }

  /** A URL whose base holds no `?` and whose query holds no `#` reads back as that base and query. */
  lemma UrlSplit(base: string, query: string)
    requires '?' !in base && '#' !in query
    ensures ReadUrl(Url(base, query)) == (base, query)
  {
    if query == "" {
      assert Url(base, query) == base;
    } else {
      UrlQuery(base, query);
    }
  }

  /** A `#` in the query cuts it: what follows is the fragment, not part of the query. */
  lemma UrlFragment(base: string, query: string, fragment: string)
    requires '?' !in base && '#' !in query
    ensures ReadUrl(Url(base, query + "#" + fragment)) == (base, query)
  {
    var rest := query + "#" + fragment;
    UrlQuery(base, rest);
    IndexOfAfter(query, '#', fragment);
    assert rest[..|query|] == query;
  }

  /**
   * The URL template puts `?` in the URL exactly when there is a query, and reading
   * the URL back gives the base, and then the serialized pairs, encoded and in order.
   */
  lemma UrlReadBack(base: string, ps: seq<Param>)
    requires '?' !in base
    ensures Url(base, Serialize(ps)) == base <==> ps == []
    ensures '?' in Url(base, Serialize(ps)) <==> ps != []
    ensures ReadUrl(Url(base, Serialize(ps))) == (base, Serialize(ps))
    ensures ReadQuery(ReadUrl(Url(base, Serialize(ps))).1) == Encoded(ps)
  {
    var qs := Serialize(ps);
    SerializedHasNo(ps, '#');
    UrlSplit(base, qs);
    if qs != "" {
      assert Url(base, qs)[|base|] == '?';
    }
    ReadBack(ps);
  }
}
