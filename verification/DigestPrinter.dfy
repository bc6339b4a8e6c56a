/** The digest header printer and its inverse relation to the scanner (AuthHeaderMD5.cpp; sections
    3.2.1 and 3.2.2 of RFC 2617). */
module DigestPrinter {
  import opened Text
  import opened Digest

  /** A quoted item, left out when the value is empty. */
  function Quoted(name: string, value: string): seq<string> {
    if value == "" then [] else [name + "=" + ("\"" + value + "\"")]
  }

  /** The size_t an int nonce count is converted to before printing. */
  function ToSizeT(x: Int32): (r: nat)
    ensures r < U64_LIMIT
  {
    x % U64_LIMIT
  }

  function ServerItems(p: AuthParams): seq<string> {
    Quoted("domain", p.domain) + Quoted("uri", p.uri) + Quoted("realm", p.realm) + Quoted("nonce", p.nonce)
    + Quoted("opaque", p.opaqueData)
    + (if p.integrity then ["qop=" + "auth-int"] else [])
    + ["algorithm=" + (if p.session then "MD5-sess" else "MD5")]
  }

  function ClientItems(p: AuthParams): seq<string> {
    Quoted("username", p.username) + Quoted("response", p.response)
    + (if p.nonceCount != 0 then ["nc=" + Hex(ToSizeT(p.nonceCount), 8)] else [])
    + Quoted("cnonce", p.clientNonce)
  }

  function Items(p: AuthParams, full: bool): (r: seq<string>)
    ensures r != []
  {
    ServerItems(p) + if full then ClientItems(p) else []
  }

  function JoinItems(items: seq<string>): string
    requires items != []
  {
    if |items| == 1 then items[0] else items[0] + ", " + JoinItems(items[1..])
  }

  function GetValue(p: AuthParams, full: bool): string {
    "Digest " + JoinItems(Items(p, full))
  }

  // ---------------------------------------------------------------- the stream of the source

  /** Every item followed by the separator, as the source streams them. */
  function Streamed(items: seq<string>): string {
    if items == [] then "" else Streamed(items[..|items| - 1]) + items[|items| - 1] + ", "
  }

  lemma {:induction false} StreamedAppend(a: seq<string>, b: seq<string>)
    ensures Streamed(a + b) == Streamed(a) + Streamed(b)
  {
    hide Streamed;
    if b == [] {
      assert Streamed([]) == "" by { NothingStreamed(); }
      assert a + b == a;
    } else {
      var n := |b| - 1;
      StreamedAppend(a, b[..n]);
      assert a + b == (a + b[..n]) + [b[n]] && b == b[..n] + [b[n]];
      StreamedOne(a + b[..n], b[n]);
      StreamedOne(b[..n], b[n]);
    }
  }

  lemma NothingStreamed()
    ensures Streamed([]) == ""
  {
  }

  lemma StreamedOne(items: seq<string>, item: string)
    ensures Streamed(items + [item]) == Streamed(items) + (item + ", ")
  {
    assert (items + [item])[..|items|] == items;
  }

  lemma {:induction false} StreamedJoin(items: seq<string>)
    requires items != []
    ensures Streamed(items) == JoinItems(items) + ", "
    decreases |items|
  {
    if |items| == 1 {
      assert items[..0] == [];
    } else {
      StreamedAppend(items[..1], items[1..]);
      assert items == items[..1] + items[1..];
      assert items[..1][..0] == [];
      StreamedJoin(items[1..]);
    }
  }

  method StreamQuoted(b: string, ghost items: seq<string>, name: string, value: string) returns (r: string)
    requires b == "Digest " + Streamed(items)
    ensures r == "Digest " + Streamed(items + Quoted(name, value))
  {
    StreamedAppend(items, Quoted(name, value));
    r := b;
    if value != "" {
      assert Quoted(name, value)[..0] == [];
      r := b + (name + "=" + ("\"" + value + "\"")) + ", ";
    }
  }

  method StreamPlain(b: string, ghost items: seq<string>, item: string) returns (r: string)
    requires b == "Digest " + Streamed(items)
    ensures r == "Digest " + Streamed(items + [item])
  {
    assert (items + [item])[..|items|] == items;
    r := b + item + ", ";
  }

  method StreamServerItems(p: AuthParams) returns (b: string)
    ensures b == "Digest " + Streamed(ServerItems(p))
  {
    b := "Digest ";
    ghost var items: seq<string> := [];
    assert b == "Digest " + Streamed(items);
    hide Streamed, Quoted;
    b := StreamQuoted(b, items, "domain", p.domain);
    items := Quoted("domain", p.domain);
    assert [] + items == items;
    b := StreamQuoted(b, items, "uri", p.uri);
    items := items + Quoted("uri", p.uri);
    b := StreamQuoted(b, items, "realm", p.realm);
    items := items + Quoted("realm", p.realm);
    b := StreamQuoted(b, items, "nonce", p.nonce);
    items := items + Quoted("nonce", p.nonce);
    b := StreamQuoted(b, items, "opaque", p.opaqueData);
    items := items + Quoted("opaque", p.opaqueData);
    if p.integrity {
      b := StreamPlain(b, items, "qop=" + "auth-int");
    } else {
      assert items + [] == items;
    }
    items := items + if p.integrity then ["qop=" + "auth-int"] else [];
    b := StreamPlain(b, items, "algorithm=" + if p.session then "MD5-sess" else "MD5");
  }

  method StreamClientItems(server: string, p: AuthParams) returns (b: string)
    requires server == "Digest " + Streamed(ServerItems(p))
    ensures b == "Digest " + Streamed(ServerItems(p) + ClientItems(p))
  {
    hide Streamed, Quoted, Hex, ServerItems;
    b := server;
    ghost var items := ServerItems(p);
    b := StreamQuoted(b, items, "username", p.username);
    items := items + Quoted("username", p.username);
    b := StreamQuoted(b, items, "response", p.response);
    items := items + Quoted("response", p.response);
    if p.nonceCount != 0 {
      b := StreamPlain(b, items, "nc=" + Hex(ToSizeT(p.nonceCount), 8));
      items := items + ["nc=" + Hex(ToSizeT(p.nonceCount), 8)];
    }
    b := StreamQuoted(b, items, "cnonce", p.clientNonce);
    items := items + Quoted("cnonce", p.clientNonce);
    assert items == ServerItems(p) + ClientItems(p);
  }

  /** The printer of the source: every item streamed with a trailing separator, the last one erased. */
  method PrintValue(p: AuthParams, full: bool) returns (r: string)
    ensures r == GetValue(p, full)
  {
    var b := StreamServerItems(p);
    if full {
      b := StreamClientItems(b, p);
    }
    assert ServerItems(p) + [] == ServerItems(p);
    StreamedJoin(Items(p, full));
    assert b == "Digest " + JoinItems(Items(p, full)) + ", ";
    r := b[..|b| - 2];
  }

  // ---------------------------------------------------------------- joining and cutting

  function JoinSegments(segments: seq<string>): string
    requires segments != []
  {
    if |segments| == 1 then segments[0] else segments[0] + "," + JoinSegments(segments[1..])
  }

  predicate AllFree(items: seq<string>) {
    forall i :: 0 <= i < |items| ==> Free(items[i], ',')
  }

  /** Cutting at commas undoes joining with commas. */
  lemma {:induction false} SegmentsOfJoin(s: string, start: nat, segments: seq<string>)
    requires segments != [] && AllFree(segments)
    requires start <= |s| && s[start..] == JoinSegments(segments)
    ensures Segments(s, start) == segments
    decreases |segments|
  {
    hide IndexOf, SegmentEnd;
    var first, rest := segments[0], segments[1..];
    assert Free(first, ',');
    if |segments| == 1 {
      FirstSegment(s, start, first, "");
      assert segments == [first];
    } else {
      var next := start + |first| + 1;
      FirstSegment(s, start, first, "," + JoinSegments(rest));
      BehindComma(s, start, first, JoinSegments(rest));
      SegmentsOfJoin(s, next, rest);
      assert Segments(s, start) == [first] + rest;
      assert segments == [first] + rest;
    }
  }

  lemma BehindComma(s: string, start: nat, first: string, rest: string)
    requires start <= |s| && s[start..] == first + "," + rest
    ensures start + |first| + 1 <= |s| && s[start + |first| + 1..] == rest
  {
    assert s == s[..start] + (first + ",") + rest;
  }

  lemma FirstSegment(s: string, start: nat, first: string, tail: string)
    requires start <= |s| && s[start..] == first + tail && Free(first, ',')
    requires tail != "" ==> tail[0] == ','
    ensures SegmentEnd(s, start) == start + |first| && s[start..start + |first|] == first
  {
    var n, rest := start + |first|, s[start..];
    assert forall i :: start <= i < n ==> s[i] == rest[i - start] == first[i - start];
    if tail != "" {
      assert s[n] == rest[|first|] == tail[0];
    }
  }

  function Spaced(items: seq<string>): seq<string> {
    seq(|items|, i requires 0 <= i < |items| => " " + items[i])
  }

  lemma {:induction false} JoinSpaced(items: seq<string>)
    requires items != []
    ensures " " + JoinItems(items) == JoinSegments(Spaced(items))
    decreases |items|
  {
    if |items| > 1 {
      JoinSpaced(items[1..]);
      assert Spaced(items)[1..] == Spaced(items[1..]);
    }
  }

  lemma JoinItemsAsSegments(items: seq<string>)
    requires items != []
    ensures JoinItems(items) == JoinSegments([items[0]] + Spaced(items[1..]))
  {
    hide JoinSegments;
    var rest := items[1..];
    if |items| > 1 {
      JoinSpaced(rest);
      JoinCons(items[0], Spaced(rest));
      assert items[0] + ", " + JoinItems(rest) == items[0] + "," + (" " + JoinItems(rest));
    } else {
      assert [items[0]] + Spaced(rest) == [items[0]];
      JoinOne(items[0]);
    }
  }

  lemma JoinOne(first: string)
    ensures JoinSegments([first]) == first
  {
  }

  lemma JoinCons(first: string, rest: seq<string>)
    requires rest != []
    ensures JoinSegments([first] + rest) == first + "," + JoinSegments(rest)
  {
    assert ([first] + rest)[1..] == rest;
  }
}
