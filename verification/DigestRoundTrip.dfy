/** Printing a digest header and reading it back (AuthHeaderMD5.cpp; RFC 2617). */
module DigestRoundTrip {
  import opened Wrappers
  import opened Text
  import opened Digest
  import opened DigestPrinter

  predicate CommaFree(p: AuthParams) {
    && Free(p.domain, ',') && Free(p.uri, ',') && Free(p.realm, ',') && Free(p.nonce, ',')
    && Free(p.opaqueData, ',') && Free(p.username, ',') && Free(p.response, ',') && Free(p.clientNonce, ',')
  }

  predicate KnownName(name: string, field: Field) {
    FieldNamed(name) == Some(field) && Free(name, '=') && Free(name, ',') && Trim(name) == name
  }

  /** Parameter names pass the scanner unchanged. */
  lemma NamesArePlain(name: string, field: Field)
    requires FieldNamed(name) == Some(field)
    ensures KnownName(name, field)
  {
    NameIsTight(name);
    TrimTight(name);
    if !Free(name, '=') {
      NameWithoutMark(name);
    }
    if !Free(name, ',') {
      NameWithComma(name);
    }
  }

  lemma NameIsTight(name: string)
    requires FieldNamed(name).Some?
    ensures name != "" && !IsSpace(name[0]) && !IsSpace(name[|name| - 1])
  {
  }

  lemma NameWithoutMark(name: string)
    requires !Free(name, '=')
    ensures FieldNamed(name) == None
  {
  }

  lemma KnownNames()
    ensures KnownName("domain", Domain) && KnownName("uri", Uri) && KnownName("realm", Realm)
    ensures KnownName("nonce", Nonce) && KnownName("opaque", Opaque) && KnownName("qop", Qop)
    ensures KnownName("algorithm", Algorithm) && KnownName("username", Username)
    ensures KnownName("response", Response) && KnownName("nc", NonceCount) && KnownName("cnonce", ClientNonce)
  {
    hide KnownName, FieldNamed;
    FieldNames();
    ClientFieldNames();
    NamesArePlain("nonce", Nonce);
    NamesArePlain("opaque", Opaque);
    NamesArePlain("qop", Qop);
    NamesArePlain("algorithm", Algorithm);
    NamesArePlain("realm", Realm);
    NamesArePlain("username", Username);
    NamesArePlain("domain", Domain);
    NamesArePlain("nc", NonceCount);
    NamesArePlain("cnonce", ClientNonce);
    NamesArePlain("uri", Uri);
    NamesArePlain("response", Response);
  }

  lemma FieldNames()
    ensures FieldNamed("nonce") == Some(Nonce) && FieldNamed("opaque") == Some(Opaque) && FieldNamed("qop") == Some(Qop)
    ensures FieldNamed("algorithm") == Some(Algorithm) && FieldNamed("realm") == Some(Realm)
    ensures FieldNamed("username") == Some(Username) && FieldNamed("domain") == Some(Domain)
  {
    assert ToLower("domain"[0]) == 'd' && ToLower("opaque"[0]) == 'o';
    assert ToLower("realm"[0]) == 'r' && ToLower("nonce"[0]) == 'n';
  }

  lemma ClientFieldNames()
    ensures FieldNamed("nc") == Some(NonceCount) && FieldNamed("cnonce") == Some(ClientNonce)
    ensures FieldNamed("uri") == Some(Uri) && FieldNamed("response") == Some(Response)
  {
    assert ToLower("domain"[0]) == 'd' && ToLower("opaque"[0]) == 'o' && ToLower("cnonce"[0]) == 'c';
    assert ToLower("uri"[0]) == 'u' && ToLower("qop"[0]) == 'q';
    assert ToLower("username"[0]) == 'u' && ToLower("response"[0]) == 'r';
  }

  lemma ItemApplies(q: AuthParams, name: string, field: Field, raw: string)
    requires KnownName(name, field)
    ensures ApplySegment(q, name + "=" + raw) ==
            (var v := TrimDoubleQuotes(Trim(raw)); if v.Threw? then Threw else Returned(Assign(q, field, v.value)))
  {
    hide Trim, TrimDoubleQuotes, FieldNamed, Assign;
    var item := name + "=" + raw;
    assert item[|name|] == '=' && item[..|name|] == name && item[|name| + 1..] == raw;
    assert forall i :: 0 <= i < |name| ==> item[i] == name[i];
    assert IndexOf(item, '=', 0) == |name|;
  }

  lemma {:induction false} FoldAppend(q: AuthParams, a: seq<string>, b: seq<string>)
    ensures FoldSegments(q, a + b) ==
            (var r := FoldSegments(q, a); if r.Threw? then Threw else FoldSegments(r.value, b))
    decreases |a|
  {
    hide ApplySegment;
    if a == [] {
      assert a + b == b;
    } else {
      assert (a + b)[1..] == a[1..] + b;
      var r := ApplySegment(q, a[0]);
      if r.Returned? {
        FoldAppend(r.value, a[1..], b);
      }
    }
  }

  /** One more item after a list that reads as `r`. */
  lemma Extend(q: AuthParams, items: seq<string>, r: AuthParams, item: string, next: AuthParams)
    requires FoldSegments(q, items) == Returned(r)
    requires ApplySegment(r, item) == Returned(next)
    ensures FoldSegments(q, items + [item]) == Returned(next)
  {
    hide ApplySegment;
    FoldAppend(q, items, [item]);
    assert [item][1..] == [];
  }

  lemma ExtendQuoted(q: AuthParams, items: seq<string>, r: AuthParams, name: string, field: Field, value: string)
    requires FoldSegments(q, items) == Returned(r) && KnownName(name, field)
    ensures FoldSegments(q, items + Quoted(name, value)) == Returned(if value == "" then r else Assign(r, field, value))
  {
    hide ApplySegment, FoldSegments, KnownName, Assign, Trim;
    if value == "" {
      assert items + [] == items;
    } else {
      var raw := "\"" + value + "\"";
      TrimTight(raw);
      assert raw[1..|raw| - 1] == value;
      ItemApplies(r, name, field, raw);
      Extend(q, items, r, name + "=" + raw, Assign(r, field, value));
    }
  }

  /** A value that neither starts nor ends with a blank and starts without a quote is taken as it is. */
  lemma PlainValue(value: string)
    requires value != "" && !IsSpace(value[0]) && !IsSpace(value[|value| - 1]) && value[0] != '"'
    ensures TrimDoubleQuotes(Trim(value)) == Returned(value)
  {
    TrimTight(value);
  }

  lemma QopValue(q: AuthParams)
    ensures ApplySegment(q, "qop=" + "auth-int") == Returned(q.(integrity := true))
  {
    hide ApplySegment, KnownName, Trim, Find, OccursAt;
    var value := "auth-int";
    KnownNames();
    PlainValue(value);
    assert Lower(value) == value;
    ContainsItself(value);
    ItemApplies(q, "qop", Qop, value);
    assert "qop" + "=" == "qop=";
  }

  lemma ContainsItself(s: string)
    ensures Contains(s, s)
  {
    assert OccursAt(s, s, 0);
  }

  lemma AlgorithmValue(q: AuthParams, session: bool)
    ensures ApplySegment(q, "algorithm=" + if session then "MD5-sess" else "MD5") == Returned(q.(session := session))
  {
    hide ApplySegment, KnownName, Trim;
    var value := if session then "MD5-sess" else "MD5";
    KnownNames();
    PlainValue(value);
    ItemApplies(q, "algorithm", Algorithm, value);
    assert "algorithm" + "=" == "algorithm=";
  }

  /** An int nonce count survives the conversion to size_t and back. */
  lemma SizeTRoundTrip(n: Int32)
    ensures ToInt32(ToSizeT(n)) == n
  {
  }

  lemma CountValue(q: AuthParams, n: Int32)
    ensures ApplySegment(q, "nc=" + Hex(ToSizeT(n), 8)) == Returned(q.(nonceCount := n))
  {
    hide ApplySegment, KnownName, Trim, ParseHex, Hex, ToSizeT, ToInt32;
    var raw := Hex(ToSizeT(n), 8);
    var value := Trim(raw);
    assert TrimDoubleQuotes(value) == Returned(value) by {
      HexShape(ToSizeT(n), 8);
      TrimFree(raw, '"');
    }
    assert Assign(q, NonceCount, value) == q.(nonceCount := n) by {
      HexRoundTrip(ToSizeT(n), 8);
      SizeTRoundTrip(n);
    }
    assert KnownName("nc", NonceCount) by {
      KnownNames();
    }
    ItemApplies(q, "nc", NonceCount, raw);
    assert "nc" + "=" == "nc=";
  }

  lemma ServerItemsRead(p: AuthParams)
    ensures FoldSegments(BLANK, ServerItems(p)) ==
            Returned(p.(username := "", response := "", clientNonce := "", nonceCount := 0))
  {
    hide ApplySegment, KnownName, Quoted;
    KnownNames();
    var q := BLANK;
    var items := Quoted("domain", p.domain);
    assert [] + items == items;
    ExtendQuoted(BLANK, [], q, "domain", Domain, p.domain);
    q := q.(domain := p.domain);
    ExtendQuoted(BLANK, items, q, "uri", Uri, p.uri);
    items, q := items + Quoted("uri", p.uri), q.(uri := p.uri);
    ExtendQuoted(BLANK, items, q, "realm", Realm, p.realm);
    items, q := items + Quoted("realm", p.realm), q.(realm := p.realm);
    ExtendQuoted(BLANK, items, q, "nonce", Nonce, p.nonce);
    items, q := items + Quoted("nonce", p.nonce), q.(nonce := p.nonce);
    ExtendQuoted(BLANK, items, q, "opaque", Opaque, p.opaqueData);
    items, q := items + Quoted("opaque", p.opaqueData), q.(opaqueData := p.opaqueData);
    if p.integrity {
      QopValue(q);
      Extend(BLANK, items, q, "qop=" + "auth-int", q.(integrity := true));
    } else {
      assert items + [] == items;
    }
    items, q := items + (if p.integrity then ["qop=" + "auth-int"] else []), q.(integrity := p.integrity);
    AlgorithmValue(q, p.session);
    Extend(BLANK, items, q, "algorithm=" + (if p.session then "MD5-sess" else "MD5"), q.(session := p.session));
  }

  lemma ClientItemsRead(p: AuthParams)
    ensures FoldSegments(p.(username := "", response := "", clientNonce := "", nonceCount := 0), ClientItems(p))
            == Returned(p)
  {
    hide ApplySegment, KnownName, Quoted, Hex;
    KnownNames();
    var start := p.(username := "", response := "", clientNonce := "", nonceCount := 0);
    var q := start;
    var items := Quoted("username", p.username);
    assert [] + items == items;
    ExtendQuoted(start, [], q, "username", Username, p.username);
    q := q.(username := p.username);
    ExtendQuoted(start, items, q, "response", Response, p.response);
    items, q := items + Quoted("response", p.response), q.(response := p.response);
    if p.nonceCount != 0 {
      CountValue(q, p.nonceCount);
      Extend(start, items, q, "nc=" + Hex(ToSizeT(p.nonceCount), 8), q.(nonceCount := p.nonceCount));
    } else {
      assert items + [] == items;
    }
    items := items + if p.nonceCount != 0 then ["nc=" + Hex(ToSizeT(p.nonceCount), 8)] else [];
    q := q.(nonceCount := p.nonceCount);
    ExtendQuoted(start, items, q, "cnonce", ClientNonce, p.clientNonce);
  }

  // ---------------------------------------------------------------- the text of the header

  lemma {:induction false} TrimRightLead(s: string)
    ensures TrimRight(" " + s) == if TrimRight(s) == "" then "" else " " + TrimRight(s)
    decreases |s|
  {
    var t := " " + s;
    if s == "" {
      assert t[..0] == "";
    } else {
      assert t[|t| - 1] == s[|s| - 1];
      if IsSpace(s[|s| - 1]) {
        assert t[..|t| - 1] == " " + s[..|s| - 1];
        TrimRightLead(s[..|s| - 1]);
      }
    }
  }

  lemma TrimLead(s: string)
    ensures Trim(" " + s) == Trim(s)
  {
    TrimRightLead(s);
    var r := TrimRight(s);
    if r != "" {
      assert (" " + r)[1..] == r;
    }
  }

  /** A blank before the name of an item means nothing. */
  lemma LeadingBlank(q: AuthParams, item: string)
    ensures ApplySegment(q, " " + item) == ApplySegment(q, item)
  {
    hide Trim, ParseParam, TrimDoubleQuotes, IndexOf;
    var eq, t := IndexOf(item, '=', 0), " " + item;
    assert forall i :: 0 <= i < |item| ==> t[i + 1] == item[i];
    if eq == -1 {
      assert IndexOf(t, '=', 0) == -1;
    } else {
      assert t[eq + 1] == '=';
      assert IndexOf(t, '=', 0) == eq + 1;
      assert t[..eq + 1] == " " + item[..eq] && t[eq + 2..] == item[eq + 1..];
      TrimLead(item[..eq]);
    }
  }

  lemma {:induction false} FoldSpaced(q: AuthParams, items: seq<string>)
    ensures FoldSegments(q, Spaced(items)) == FoldSegments(q, items)
    decreases |items|
  {
    hide ApplySegment;
    if items != [] {
      LeadingBlank(q, items[0]);
      assert Spaced(items)[1..] == Spaced(items[1..]);
      var r := ApplySegment(q, items[0]);
      if r.Returned? {
        FoldSpaced(r.value, items[1..]);
      }
    }
  }

  /** A list of comma-free items, joined and scanned, has the effect of its items. */
  lemma JoinedItemsRead(q: AuthParams, items: seq<string>)
    requires items != [] && AllFree(items)
    ensures FoldSegments(q, Segments(JoinItems(items), 0)) == FoldSegments(q, items)
  {
    hide ApplySegment, Segments, JoinItems, JoinSegments;
    var tail := items[1..];
    var segments := [items[0]] + Spaced(tail);
    assert Free(items[0], ',');
    forall i | 0 <= i < |segments| ensures Free(segments[i], ',') {
      if i > 0 {
        FreeConcat(" ", items[i], ',');
      }
    }
    JoinItemsAsSegments(items);
    SegmentsOfJoin(JoinItems(items), 0, segments);
    assert segments[1..] == Spaced(tail);
    var r := ApplySegment(q, items[0]);
    if r.Returned? {
      FoldSpaced(r.value, tail);
    }
  }

  lemma QuotedFree(name: string, field: Field, value: string)
    requires KnownName(name, field) && Free(value, ',')
    ensures AllFree(Quoted(name, value))
  {
    if value != "" {
      FreeConcat("\"", value, ',');
      FreeConcat("\"" + value, "\"", ',');
      FreeConcat(name, "=", ',');
      FreeConcat(name + "=", "\"" + value + "\"", ',');
    }
  }

  lemma AllFreeConcat(a: seq<string>, b: seq<string>)
    requires AllFree(a) && AllFree(b)
    ensures AllFree(a + b)
  {
  }

  lemma ItemsFree(p: AuthParams)
    requires CommaFree(p)
    ensures AllFree(Items(p, true))
  {
    hide KnownName, Hex, AllFree, Quoted;
    KnownNames();
    ServerItemsFree(p);
    QuotedFree("username", Username, p.username);
    QuotedFree("response", Response, p.response);
    QuotedFree("cnonce", ClientNonce, p.clientNonce);
    var count := if p.nonceCount != 0 then ["nc=" + Hex(ToSizeT(p.nonceCount), 8)] else [];
    CountFree(p);
    AllFreeConcat(Quoted("username", p.username), Quoted("response", p.response));
    AllFreeConcat(Quoted("username", p.username) + Quoted("response", p.response), count);
    AllFreeConcat(Quoted("username", p.username) + Quoted("response", p.response) + count,
      Quoted("cnonce", p.clientNonce));
    AllFreeConcat(ServerItems(p), ClientItems(p));
  }

  lemma CountFree(p: AuthParams)
    ensures AllFree(if p.nonceCount != 0 then ["nc=" + Hex(ToSizeT(p.nonceCount), 8)] else [])
  {
    hide Hex, ToSizeT, TrimLeft, TrimRight, Digits;
    HexShape(ToSizeT(p.nonceCount), 8);
    assert Free("nc=", ',');
    FreeConcat("nc=", Hex(ToSizeT(p.nonceCount), 8), ',');
  }

  lemma ServerItemsFree(p: AuthParams)
    requires CommaFree(p)
    ensures AllFree(ServerItems(p))
  {
    hide KnownName, AllFree, Quoted;
    KnownNames();
    var items := Quoted("domain", p.domain);
    QuotedFree("domain", Domain, p.domain);
    QuotedFree("uri", Uri, p.uri);
    AllFreeConcat(items, Quoted("uri", p.uri));
    items := items + Quoted("uri", p.uri);
    QuotedFree("realm", Realm, p.realm);
    AllFreeConcat(items, Quoted("realm", p.realm));
    items := items + Quoted("realm", p.realm);
    QuotedFree("nonce", Nonce, p.nonce);
    AllFreeConcat(items, Quoted("nonce", p.nonce));
    items := items + Quoted("nonce", p.nonce);
    QuotedFree("opaque", Opaque, p.opaqueData);
    AllFreeConcat(items, Quoted("opaque", p.opaqueData));
    items := items + Quoted("opaque", p.opaqueData);
    FlagsFree(p);
    AllFreeConcat(items, if p.integrity then ["qop=" + "auth-int"] else []);
    items := items + if p.integrity then ["qop=" + "auth-int"] else [];
    AllFreeConcat(items, ["algorithm=" + (if p.session then "MD5-sess" else "MD5")]);
  }

  lemma FlagsFree(p: AuthParams)
    ensures AllFree(if p.integrity then ["qop=" + "auth-int"] else [])
    ensures AllFree(["algorithm=" + (if p.session then "MD5-sess" else "MD5")])
  {
  }

  // ---------------------------------------------------------------- what a scan can produce

  lemma {:induction false} SegmentsFree(s: string, start: nat)
    requires start <= |s|
    ensures AllFree(Segments(s, start))
    decreases |s| - start
  {
    hide IndexOf;
    var end := SegmentEnd(s, start);
    if end < |s| {
      SegmentsFree(s, end + 1);
    }
  }

  /** No scanned parameter contains a comma. */
  lemma {:induction false} FoldCommaFree(q: AuthParams, segments: seq<string>)
    requires CommaFree(q) && AllFree(segments)
    ensures FoldSegments(q, segments).Returned? ==> CommaFree(FoldSegments(q, segments).value)
    decreases |segments|
  {
    hide ApplySegment, CommaFree;
    if segments != [] {
      assert Free(segments[0], ',');
      SegmentCommaFree(q, segments[0]);
      var r := ApplySegment(q, segments[0]);
      if r.Returned? {
        FoldCommaFree(r.value, segments[1..]);
      }
    }
  }

  lemma SegmentCommaFree(q: AuthParams, segment: string)
    requires CommaFree(q) && Free(segment, ',')
    ensures ApplySegment(q, segment).Returned? ==> CommaFree(ApplySegment(q, segment).value)
  {
    hide FieldNamed, Trim, IndexOf, Assign, CommaFree;
    var eq := IndexOf(segment, '=', 0);
    if eq != -1 {
      TrimFree(segment[eq + 1..], ',');
      var value := TrimDoubleQuotes(Trim(segment[eq + 1..]));
      var field := FieldNamed(Trim(segment[..eq]));
      if value.Returned? && field.Some? {
        AssignCommaFree(q, field.value, value.value);
      }
    }
  }

  lemma AssignCommaFree(q: AuthParams, field: Field, value: string)
    requires CommaFree(q) && Free(value, ',')
    ensures CommaFree(Assign(q, field, value))
  {
    hide Free, ParseHex, Contains, EqualsIgnoreCase, Lower, ToInt32;
  }

  /** Scanning the printed header gives the parameters back exactly when no text field has a comma; for
      every nonce count, in all four combinations of algorithm and qop, with empty fields left out. */
  lemma HeaderRoundTrip(p: AuthParams)
    ensures ParseHeader(BLANK, GetValue(p, true)) == Returned(p) <==> CommaFree(p)
  {
    hide Items, Segments, JoinItems, FoldSegments, CommaFree, ParseHeader;
    ListRead(JoinItems(Items(p, true)));
    if CommaFree(p) {
      ItemsFree(p);
      JoinedItemsRead(BLANK, Items(p, true));
      AllItemsRead(p);
    }
  }

  /** The parameters without the client's part. */
  function ServerPart(p: AuthParams): AuthParams {
    p.(username := "", response := "", clientNonce := "", nonceCount := 0)
  }

  /** The short form of the header holds the server's part, and reads back to it on the same condition. */
  lemma ShortHeaderRoundTrip(p: AuthParams)
    ensures ParseHeader(BLANK, GetValue(p, false)) == Returned(ServerPart(p)) <==> CommaFree(ServerPart(p))
  {
    hide ServerItems, Segments, JoinItems, FoldSegments, ParseHeader;
    var q := ServerPart(p);
    assert Items(p, false) == ServerItems(q) by { SameServerItems(p); }
    ListRead(JoinItems(Items(p, false)));
    if CommaFree(q) {
      ServerItemsFree(q);
      JoinedItemsRead(BLANK, Items(p, false));
      ServerItemsRead(q);
    }
  }

  lemma SameServerItems(p: AuthParams)
    ensures Items(p, false) == ServerItems(ServerPart(p))
  {
  }

  /** Reading a header folds its list, and nothing that comes out holds a comma. */
  lemma ListRead(list: string)
    ensures ParseHeader(BLANK, "Digest " + list) == FoldSegments(BLANK, Segments(list, 0))
    ensures ParseHeader(BLANK, "Digest " + list).Returned? ==> CommaFree(ParseHeader(BLANK, "Digest " + list).value)
  {
    hide Segments, FoldSegments, CommaFree, IndexOf;
    var header := "Digest " + list;
    assert header == "Digest" + " " + list;
    DigestHeader(header, list);
    SegmentsFree(list, 0);
    BlankIsCommaFree();
    FoldCommaFree(BLANK, Segments(list, 0));
  }

  lemma BlankIsCommaFree()
    ensures CommaFree(BLANK)
  {
  }

  lemma AllItemsRead(p: AuthParams)
    ensures FoldSegments(BLANK, Items(p, true)) == Returned(p)
  {
    hide FoldSegments, ServerItems, ClientItems;
    ServerItemsRead(p);
    ClientItemsRead(p);
    FoldAppend(BLANK, ServerItems(p), ClientItems(p));
  }
}
