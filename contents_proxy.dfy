/**
 * The `/api/contents` route handler: it rejects methods other than GET, takes `page`
 * and `size` from the request with the defaults "0" and "9", writes them into the
 * upstream URL as they are, with no encoding, and relays the upstream answer.
 */
module ContentsProxy {
  import opened Wrappers
  import opened Seqs
  import opened FormUrlEncoded
  import opened Http

  const CONTENTS := ORIGIN + "/contents"
  const DEFAULT_PAGE := "0"
  const DEFAULT_SIZE := "9"

  /** Destructuring with a default: the default applies only when the parameter is absent. */
  function ValueOr(query: map<string, string>, name: string, default: string): string {
    if name in query then query[name] else default
  }

  /** The URL template, `page` and `size` inserted verbatim. */
  function UpstreamUrl(query: map<string, string>): (url: string)
    ensures |url| >= |CONTENTS| + 12 && url[..|CONTENTS|] == CONTENTS
    ensures url[|CONTENTS|..|CONTENTS| + 6] == "?page="
  {
    CONTENTS + "?page=" + ValueOr(query, "page", DEFAULT_PAGE) + "&size=" + ValueOr(query, "size", DEFAULT_SIZE)
  }

  /** The handler: 405 for other methods, otherwise the upstream call and its relay. */
  function Handle(req: Request, upstream: Fetched): (ex: Exchange)
    ensures ex.upstreamUrl.Some? <==> req.verb == GET
    ensures ex.upstreamUrl.Some? ==> ex.upstreamUrl.value == UpstreamUrl(req.query)
    ensures ex.reply.status == 405 <==> req.verb != GET
    ensures ex.reply.status == 405 ==> ex.reply.body == Failure(METHOD_NOT_ALLOWED)
    ensures ex.reply.status == 200 <==>
      req.verb == GET && upstream.Answered? && Ok(upstream.status) && upstream.body.Some?
    ensures ex.reply.status == 200 ==> ex.reply.body == Relayed(upstream.body.value)
    ensures req.verb == GET && ex.reply.status != 200 ==> ex.reply == Reply(500, Failure(SERVER_ERROR))
  {
    if req.verb != GET then REJECTED
    else Exchange(Some(UpstreamUrl(req.query)), Relay(upstream))
  }

  /** A piece `name=value` reads back as that pair when the name holds no `=`. */
  lemma ReadPiece(name: string, value: string)
    requires '=' !in name
    ensures ReadField(name + "=" + value) == Param(name, value)
  {
    IndexOfAfter(name, '=', value);
    assert (name + "=" + value)[..|name|] == name;
    assert (name + "=" + value)[|name| + 1..] == value;
  }

  /** A first piece without `&` is read on its own, ahead of the rest of the query. */
  lemma ReadFirstPiece(a: string, rest: string)
    requires '&' !in a && rest != ""
    ensures ReadQuery(a + "&" + rest) == [ReadField(a)] + ReadQuery(rest)
  {
    SplitJoined(a, '&', rest);
    assert a + "&" + rest != "";
    assert ReadFields([a] + Split(rest, '&')) == [ReadField(a)] + ReadFields(Split(rest, '&'));
  }

  /** Two pairs written `n1=v1&n2=v2`, with no `&` in them, read back as those pairs. */
  lemma ReadTwoPairs(n1: string, v1: string, n2: string, v2: string)
    requires '=' !in n1 && '=' !in n2
    requires '&' !in n1 && '&' !in v1 && '&' !in n2 && '&' !in v2
    ensures ReadQuery(n1 + "=" + v1 + "&" + n2 + "=" + v2) == [Param(n1, v1), Param(n2, v2)]
  {
    var a, b := n1 + "=" + v1, n2 + "=" + v2;
    assert n1 + "=" + v1 + "&" + n2 + "=" + v2 == a + "&" + b;
    ReadFirstPiece(a, b);
    SplitWithout(b, '&');
    assert ReadQuery(b) == [ReadField(b)];
    ReadPiece(n1, v1);
    ReadPiece(n2, v2);
  }

  /** The query the template writes, read back. */
  lemma ReadTemplateQuery(page: string, size: string)
    requires '&' !in page && '&' !in size
    ensures ReadQuery("page=" + page + "&size=" + size) == [Param("page", page), Param("size", size)]
  {
    assert "page=" + page + "&size=" + size == "page" + "=" + page + "&" + "size" + "=" + size;
    ReadTwoPairs("page", page, "size", size);
  }

  /** The template is the URL template with the query `page=…&size=…`. */
  lemma UpstreamUrlIsUrl(query: map<string, string>)
    ensures UpstreamUrl(query) ==
      Url(CONTENTS, "page=" + ValueOr(query, "page", DEFAULT_PAGE) + "&size=" + ValueOr(query, "size", DEFAULT_SIZE))
  {
  }

  /** Any query without `#` after the contents endpoint is read back whole. */
  lemma ContentsUrlSplit(qs: string)
    requires '#' !in qs
    ensures ReadUrl(Url(CONTENTS, qs)) == (CONTENTS, qs)
  {
    assert '?' !in CONTENTS;
    UrlSplit(CONTENTS, qs);
  }

  /**
   * When neither value holds `&` or `#`, the upstream URL is the contents endpoint and
   * its query reads back as exactly `page` then `size`: the request's values when
   * present, even empty, and "0" and "9" when absent. `PageValueInjects` and
   * `FragmentCutsQuery` show what a value holding `&` or `#` does instead.
   */
  lemma UpstreamUrlReadBack(query: map<string, string>)
    requires '&' !in ValueOr(query, "page", DEFAULT_PAGE) && '&' !in ValueOr(query, "size", DEFAULT_SIZE)
    requires '#' !in ValueOr(query, "page", DEFAULT_PAGE) && '#' !in ValueOr(query, "size", DEFAULT_SIZE)
    ensures ReadUrl(UpstreamUrl(query)).0 == CONTENTS
    ensures ReadQuery(ReadUrl(UpstreamUrl(query)).1) ==
      [Param("page", ValueOr(query, "page", DEFAULT_PAGE)), Param("size", ValueOr(query, "size", DEFAULT_SIZE))]
  {
    var page, size := ValueOr(query, "page", DEFAULT_PAGE), ValueOr(query, "size", DEFAULT_SIZE);
    UpstreamUrlIsUrl(query);
    TemplateWithoutFragment(page, size);
    ContentsUrlSplit("page=" + page + "&size=" + size);
    ReadTemplateQuery(page, size);
  }

  /** The template adds no `#` of its own. */
  lemma TemplateWithoutFragment(page: string, size: string)
    requires '#' !in page && '#' !in size
    ensures '#' !in "page=" + page + "&size=" + size
  {
  }

  /** An empty `page` is kept as it is: the default applies only to an absent one. */
  lemma EmptyPageKept()
    ensures UpstreamUrl(map["page" := ""]) == CONTENTS + "?page=&size=9"
  {
  }

  /** Three pairs written `n1=v1&n2=v2&n3=v3`, with no `&` in them, read back as those pairs. */
  lemma ReadThreePairs(n1: string, v1: string, n2: string, v2: string, n3: string, v3: string)
    requires '=' !in n1 && '=' !in n2 && '=' !in n3
    requires '&' !in n1 && '&' !in v1 && '&' !in n2 && '&' !in v2 && '&' !in n3 && '&' !in v3
    ensures ReadQuery(n1 + "=" + v1 + "&" + n2 + "=" + v2 + "&" + n3 + "=" + v3) ==
      [Param(n1, v1), Param(n2, v2), Param(n3, v3)]
  {
    var first, rest := n1 + "=" + v1, n2 + "=" + v2 + "&" + n3 + "=" + v3;
    assert n1 + "=" + v1 + "&" + n2 + "=" + v2 + "&" + n3 + "=" + v3 == first + "&" + rest;
    ReadFirstPiece(first, rest);
    ReadPiece(n1, v1);
    ReadTwoPairs(n2, v2, n3, v3);
  }

  /** A query `page=v&size=w&size=d`, with no `&` in the values, reads back as three pairs. */
  lemma ReadInjectedQuery(v: string, w: string, d: string)
    requires '&' !in v && '&' !in w && '&' !in d
    ensures ReadQuery("page=" + (v + "&size=" + w) + "&size=" + d) ==
      [Param("page", v), Param("size", w), Param("size", d)]
  {
    InjectedQueryPieces(v, w, d);
    ReadThreePairs("page", v, "size", w, "size", d);
  }

  /** The injected query is the three pairs written out. */
  lemma InjectedQueryPieces(v: string, w: string, d: string)
    ensures "page=" + (v + "&size=" + w) + "&size=" + d ==
      "page" + "=" + v + "&" + "size" + "=" + w + "&" + "size" + "=" + d
  {
  }

  /**
   * Nothing is encoded: a `page` value `v&size=w` smuggles a second `size` parameter
   * into the upstream query, ahead of the handler's own.
   */
  lemma PageValueInjects(v: string, w: string)
    requires '&' !in v && '&' !in w && '#' !in v && '#' !in w
    ensures var url := UpstreamUrl(map["page" := v + "&size=" + w]);
      ReadUrl(url).0 == CONTENTS &&
      ReadQuery(ReadUrl(url).1) == [Param("page", v), Param("size", w), Param("size", DEFAULT_SIZE)]
  {
    var query := map["page" := v + "&size=" + w];
    assert ValueOr(query, "page", DEFAULT_PAGE) == v + "&size=" + w;
    assert ValueOr(query, "size", DEFAULT_SIZE) == DEFAULT_SIZE;
    UpstreamUrlIsUrl(query);
    TemplateWithoutFragment(v + "&size=" + w, DEFAULT_SIZE);
    ContentsUrlSplit("page=" + (v + "&size=" + w) + "&size=" + DEFAULT_SIZE);
    ReadInjectedQuery(v, w, DEFAULT_SIZE);
  }

  /** One pair `n=v`, with no `&` in it, reads back as that pair. */
  lemma ReadOnePair(n: string, v: string)
    requires '=' !in n && '&' !in n && '&' !in v
    ensures ReadQuery(n + "=" + v) == [Param(n, v)]
  {
    SplitWithout(n + "=" + v, '&');
    assert n + "=" + v != "";
    ReadPiece(n, v);
  }

  /**
   * Nothing is encoded: a `page` value `v#x` starts the fragment, so the query the
   * upstream receives is `page=v` alone and the handler's `size` is lost.
   */
  lemma FragmentCutsQuery(v: string, x: string)
    requires '&' !in v && '#' !in v
    ensures var url := UpstreamUrl(map["page" := v + "#" + x]);
      ReadUrl(url).0 == CONTENTS &&
      ReadQuery(ReadUrl(url).1) == [Param("page", v)]
  {
    var query := map["page" := v + "#" + x];
    assert ValueOr(query, "page", DEFAULT_PAGE) == v + "#" + x;
    assert ValueOr(query, "size", DEFAULT_SIZE) == DEFAULT_SIZE;
    UpstreamUrlIsUrl(query);
    var head, tail := "page" + "=" + v, x + "&size=" + DEFAULT_SIZE;
    FragmentPieces(v, x, DEFAULT_SIZE);
    ContentsUrlFragment(head, tail);
    ReadOnePair("page", v);
  }

  /** The template around a `page` holding `#`: the first pair's head, `#`, and the rest. */
  lemma FragmentPieces(v: string, x: string, d: string)
    requires '#' !in v
    ensures '#' !in "page" + "=" + v
    ensures "page=" + (v + "#" + x) + "&size=" + d == ("page" + "=" + v) + "#" + (x + "&size=" + d)
  {
  }

  /** After the contents endpoint, a query is read back up to its first `#`. */
  lemma ContentsUrlFragment(head: string, tail: string)
    requires '#' !in head
    ensures ReadUrl(Url(CONTENTS, head + "#" + tail)) == (CONTENTS, head)
  {
    assert '?' !in CONTENTS;
    UrlFragment(CONTENTS, head, tail);
  }

  /** Only `page` and `size` are read: every other query parameter is dropped. */
  lemma OtherParamsIgnored(q1: map<string, string>, q2: map<string, string>)
    requires ("page" in q1 <==> "page" in q2) && ("page" in q1 ==> q1["page"] == q2["page"])
    requires ("size" in q1 <==> "size" in q2) && ("size" in q1 ==> q1["size"] == q2["size"])
    ensures UpstreamUrl(q1) == UpstreamUrl(q2)
  {
  }
}
