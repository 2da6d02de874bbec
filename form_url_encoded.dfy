/**
 * The query-string builder the handlers use: the platform's `URLSearchParams`, an
 * ordered list of name/value pairs that `append` extends and `toString` serializes
 * with the application/x-www-form-urlencoded serializer of the WHATWG URL Standard
 * (section 5.2): names and values are UTF-8 percent-encoded except for ASCII
 * alphanumerics and `*-._`, a space becomes `+`, each pair is written `name=value`
 * and pairs are joined by `&`.
 *
 * `ReadQuery` is an independent reader: it splits a query string at `&` and each
 * piece at its first `=`, without decoding. `ReadBack` proves that it recovers the
 * appended pairs, in order, each as its encoded form.
 */
module FormUrlEncoded {
  import opened Seqs

  datatype Param = Param(name: string, value: string)

  /** The characters the serializer copies unchanged. */
  predicate Unreserved(c: char) {
    ('a' <= c <= 'z') || ('A' <= c <= 'Z') || ('0' <= c <= '9') || c == '*' || c == '-' || c == '.' || c == '_'
  }

  /** The characters an encoded name or value can consist of. */
  predicate Emitted(c: char) {
    Unreserved(c) || c == '+' || c == '%'
  }

  predicate AllUnreserved(s: string) {
    forall c <- s :: Unreserved(c)
  }

  /** Upper-case hexadecimal digit of a nibble. */
  function HexDigit(n: nat): (c: char)
    requires n < 16
    ensures Unreserved(c)
  {
    if n < 10 then ('0' as int + n) as char else ('A' as int + n - 10) as char
  }

  /** The UTF-8 encoding of a Unicode scalar value. */
  function Utf8(c: char): (bytes: seq<nat>)
    ensures 1 <= |bytes| <= 4
    ensures forall k :: 0 <= k < |bytes| ==> bytes[k] < 256
  {
    var cp := c as int;
    if cp < 0x80 then [cp]
    else if cp < 0x800 then [0xC0 + cp / 0x40, 0x80 + cp % 0x40]
    else if cp < 0x1_0000 then [0xE0 + cp / 0x1000, 0x80 + (cp / 0x40) % 0x40, 0x80 + cp % 0x40]
    else [0xF0 + (cp / 0x4_0000) % 8, 0x80 + (cp / 0x1000) % 0x40, 0x80 + (cp / 0x40) % 0x40, 0x80 + cp % 0x40]
  }

  function PercentEncode(bytes: seq<nat>): (s: string)
    requires forall k :: 0 <= k < |bytes| ==> bytes[k] < 256
    ensures |s| == 3 * |bytes|
    ensures forall d <- s :: Emitted(d)
  {
    if bytes == [] then ""
    else ['%', HexDigit(bytes[0] / 16), HexDigit(bytes[0] % 16)] + PercentEncode(bytes[1..])
  }

  function EncodeChar(c: char): (s: string)
    ensures s != []
    ensures forall d <- s :: Emitted(d)
    ensures Unreserved(c) ==> s == [c]
  {
    if Unreserved(c) then [c]
    else if c == ' ' then "+"
    else PercentEncode(Utf8(c))
  }

  /** The serializer's encoding of one name or value. */
  function Encode(s: string): (e: string)
    ensures |e| >= |s|
    ensures forall d <- e :: Emitted(d)
    ensures AllUnreserved(s) ==> e == s
  {
    if s == [] then ""
    else EncodeChar(s[0]) + Encode(s[1..])
  }

  /** One serialized pair, `name=value`. */
  function Field(p: Param): string {
    Encode(p.name) + "=" + Encode(p.value)
  }

  /** What `URLSearchParams.toString()` returns for the given list of pairs. */
  function Serialize(ps: seq<Param>): (qs: string)
    ensures qs == "" <==> ps == []
  {
    if ps == [] then ""
    else if |ps| == 1 then Field(ps[0])
    else Field(ps[0]) + "&" + Serialize(ps[1..])
  }

  /** The serialized pairs, one string per pair. */
  function Fields(ps: seq<Param>): (fs: seq<string>)
    ensures |fs| == |ps|
  {
    if ps == [] then [] else [Field(ps[0])] + Fields(ps[1..])
  }

  /** The pairs with their names and values encoded, as they stand in the serialized string. */
  function Encoded(ps: seq<Param>): (es: seq<Param>)
    ensures |es| == |ps|
  {
    if ps == [] then [] else [Param(Encode(ps[0].name), Encode(ps[0].value))] + Encoded(ps[1..])
  }

  /** The pieces of `s` between occurrences of `sep`. */
  function Split(s: string, sep: char): (pieces: seq<string>)
    ensures |pieces| >= 1
    decreases |s|
  {
    if s == [] then [""]
    else
      var rest := Split(s[1..], sep);
      if s[0] == sep then [""] + rest else [[s[0]] + rest[0]] + rest[1..]
  }

  /** A piece `name=value` read at its first `=`; a piece without `=` is a name with an empty value. */
  function ReadField(piece: string): Param {
    var i := IndexOf(piece, '=');
    if i == |piece| then Param(piece, "") else Param(piece[..i], piece[i + 1..])
  }

  function ReadFields(pieces: seq<string>): (ps: seq<Param>)
    ensures |ps| == |pieces|
  {
    if pieces == [] then [] else [ReadField(pieces[0])] + ReadFields(pieces[1..])
  }

  /** The name/value pairs of a query string, in order and not decoded. */
  function ReadQuery(qs: string): seq<Param> {
    if qs == "" then [] else ReadFields(Split(qs, '&'))
  }

  /** The mutable accumulator the handlers build their queries in. */
  class SearchParams {
    var entries: seq<Param>

    constructor ()
      ensures entries == []
    {
      entries := [];
    }

    method Append(name: string, value: string)
      modifies this
      ensures entries == old(entries) + [Param(name, value)]
    {
      entries := entries + [Param(name, value)];
    }

    function ToString(): (qs: string)
      reads this
      ensures qs == "" <==> entries == []
    {
      Serialize(entries)
    }
  }

  lemma {:induction false} SplitWithout(a: string, sep: char)
    requires sep !in a
    ensures Split(a, sep) == [a]
    decreases |a|
  {
    if a != [] {
      assert sep !in a[1..];
      SplitWithout(a[1..], sep);
      assert [a[0]] + a[1..] == a;
    }
  }

  lemma {:induction false} SplitJoined(a: string, sep: char, b: string)
    requires sep !in a
    ensures Split(a + [sep] + b, sep) == [a] + Split(b, sep)
    decreases |a|
  {
    if a == [] {
      assert a + [sep] + b == [sep] + b;
      assert ([sep] + b)[1..] == b;
    } else {
      var s := a + [sep] + b;
      assert s[0] == a[0];
      assert s[1..] == a[1..] + [sep] + b;
      assert sep !in a[1..];
      SplitJoined(a[1..], sep, b);
      assert [a[0]] + a[1..] == a;
    }
  }

  lemma EncodedHasNo(s: string, c: char)
    requires !Emitted(c)
    ensures c !in Encode(s)
  {
  }

  /** A character the encoding never emits, other than the separators, is absent from the serialized query. */
  lemma {:induction false} SerializedHasNo(ps: seq<Param>, c: char)
    requires !Emitted(c) && c != '&' && c != '='
    ensures c !in Serialize(ps)
  {
    if ps != [] {
      EncodedHasNo(ps[0].name, c);
      EncodedHasNo(ps[0].value, c);
      SerializedHasNo(ps[1..], c);
    }
  }

  lemma ReadFieldOfField(p: Param)
    ensures ReadField(Field(p)) == Param(Encode(p.name), Encode(p.value))
  {
    var n, v := Encode(p.name), Encode(p.value);
    EncodedHasNo(p.name, '=');
    IndexOfAfter(n, '=', v);
    assert Field(p) == n + ['='] + v;
    assert Field(p)[..|n|] == n;
    assert Field(p)[|n| + 1..] == v;
  }

  /** The serialized string, split at `&`, is the list of serialized pairs. */
  lemma {:induction false} SplitSerialized(ps: seq<Param>)
    requires ps != []
    ensures Split(Serialize(ps), '&') == Fields(ps)
  {
    var f := Field(ps[0]);
    EncodedHasNo(ps[0].name, '&');
    EncodedHasNo(ps[0].value, '&');
    assert '&' !in f;
    if |ps| == 1 {
      SplitWithout(f, '&');
    } else {
      SplitJoined(f, '&', Serialize(ps[1..]));
      assert Serialize(ps) == f + ['&'] + Serialize(ps[1..]);
      SplitSerialized(ps[1..]);
    }
  }

  lemma {:induction false} ReadFieldsOfFields(ps: seq<Param>)
    ensures ReadFields(Fields(ps)) == Encoded(ps)
  {
    if ps != [] {
      ReadFieldOfField(ps[0]);
      ReadFieldsOfFields(ps[1..]);
    }
  }

  /** Reading a serialized query recovers every appended pair, in order, encoded. */
  lemma ReadBack(ps: seq<Param>)
    ensures ReadQuery(Serialize(ps)) == Encoded(ps)
  {
    if ps != [] {
      SplitSerialized(ps);
      ReadFieldsOfFields(ps);
    }
  }

  /** Pairs whose names and values need no escaping are serialized verbatim. */
  lemma {:induction false} EncodedVerbatim(ps: seq<Param>)
    requires forall p <- ps :: AllUnreserved(p.name) && AllUnreserved(p.value)
    ensures Encoded(ps) == ps
  {
    if ps != [] {
      assert ps[0] in ps;
      EncodedVerbatim(ps[1..]);
    }
  }

  /** Encoding keeps every name that needs no escaping, so the reader sees the same names. */
  lemma {:induction false} EncodedNames(ps: seq<Param>)
    requires forall p <- ps :: AllUnreserved(p.name)
    ensures forall i :: 0 <= i < |ps| ==> Encoded(ps)[i].name == ps[i].name
  {
    if ps != [] {
      assert ps[0] in ps;
      EncodedNames(ps[1..]);
    }
  }
}
