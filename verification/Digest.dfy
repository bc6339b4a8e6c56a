/** The digest header: parameters, scanner, printer and response (AuthHeaderMD5.cpp; RFC 2617,
    sections 3.2.1 and 3.2.2).  MD5 itself is a parameter. */
module Digest {
  import opened Wrappers
  import opened Text

  type Hash16 = h: seq<Byte> | |h| == 16 witness seq(16, _ => 0)
  type Md5 = string -> Hash16

  datatype AuthParams = AuthParams(
    nonce: string,
    opaqueData: string,
    integrity: bool,
    session: bool,
    domain: string,
    realm: string,
    uri: string,
    username: string,
    clientNonce: string,
    response: string,
    nonceCount: Int32)

  /** The state both constructors start from. */
  const BLANK := AuthParams("", "", false, false, "", "", "", "", "", "", 0)

  datatype Field =
    Nonce | Opaque | Qop | Algorithm | Realm | Username | Domain | NonceCount | ClientNonce | Uri | Response

  // ---------------------------------------------------------------- scanner

  /** The name chain of parseParam, in its order. */
  function FieldNamed(name: string): Option<Field> {
    if EqualsIgnoreCase(name, "nonce") then Some(Nonce)
    else if EqualsIgnoreCase(name, "opaque") then Some(Opaque)
    else if EqualsIgnoreCase(name, "qop") then Some(Qop)
    else if EqualsIgnoreCase(name, "algorithm") then Some(Algorithm)
    else if EqualsIgnoreCase(name, "realm") then Some(Realm)
    else if EqualsIgnoreCase(name, "username") then Some(Username)
    else if EqualsIgnoreCase(name, "domain") then Some(Domain)
    else if EqualsIgnoreCase(name, "nc") then Some(NonceCount)
    else if EqualsIgnoreCase(name, "cnonce") then Some(ClientNonce)
    else if EqualsIgnoreCase(name, "uri") then Some(Uri)
    else if EqualsIgnoreCase(name, "response") then Some(Response)
    else None
  }

  function Assign(p: AuthParams, field: Field, value: string): AuthParams {
    match field
    case Nonce => p.(nonce := value)
    case Opaque => p.(opaqueData := value)
    case Qop => p.(integrity := Contains(Lower(value), "auth-int"))
    case Algorithm => p.(session := EqualsIgnoreCase(value, "MD5-sess"))
    case Realm => p.(realm := value)
    case Username => p.(username := value)
    case Domain => p.(domain := value)
    case NonceCount => p.(nonceCount := ToInt32(ParseHex(value)))
    case ClientNonce => p.(clientNonce := value)
    case Uri => p.(uri := value)
    case Response => p.(response := value)
  }

  function ParseParam(p: AuthParams, name: string, value: string): AuthParams {
    match FieldNamed(name)
    case None => p
    case Some(field) => Assign(p, field, value)
  }

  /** What one comma-free segment means: the text before its first '=' names the parameter. */
  function ApplySegment(p: AuthParams, segment: string): Outcome<AuthParams> {
    var eq := IndexOf(segment, '=', 0);
    if eq == -1 then Returned(p)
    else
      var value :- TrimDoubleQuotes(Trim(segment[eq + 1..]));
      Returned(ParseParam(p, Trim(segment[..eq]), value))
  }

  function FoldSegments(p: AuthParams, segments: seq<string>): Outcome<AuthParams>
    decreases |segments|
  {
    if segments == [] then Returned(p)
    else
      var q :- ApplySegment(p, segments[0]);
      FoldSegments(q, segments[1..])
  }

  /** Where the segment starting at `start` ends. */
  function SegmentEnd(s: string, start: nat): (r: nat)
    requires start <= |s|
    ensures start <= r <= |s|
  {
    var comma := IndexOf(s, ',', start);
    if comma == -1 then |s| else comma
  }

  /** The parameter list from `start` on, cut at its commas. */
  function Segments(s: string, start: nat): (r: seq<string>)
    requires start <= |s|
    ensures r != []
    decreases |s| - start
  {
    var end := SegmentEnd(s, start);
    if end == |s| then [s[start..]] else [s[start..end]] + Segments(s, end + 1)
  }

  /** The text before the first blank names the Digest scheme. */
  predicate NamesDigest(header: string) {
    var space := IndexOf(header, ' ', 0);
    space != -1 && EqualsIgnoreCase(Trim(header[..space]), "Digest")
  }

  function ParseHeader(p: AuthParams, header: string): Outcome<AuthParams> {
    if !NamesDigest(header) then Returned(p)
    else FoldSegments(p, Segments(header[IndexOf(header, ' ', 0) + 1..], 0))
  }

  /** One turn of the scanning loop.  The search for '=' is not bounded by the next comma, so it can run
      into a later segment; the value then extends to the end of the text. */
  function ScanStep(p: AuthParams, s: string, start: nat): Outcome<AuthParams>
    requires start <= |s|
  {
    var pos, eqPos := SegmentEnd(s, start), IndexOf(s, '=', start);
    if eqPos < 0 then Returned(p)
    else
      var value :- TrimDoubleQuotes(Trim(s[eqPos + 1..if eqPos < pos then pos else |s|]));
      Returned(ParseParam(p, Trim(s[start..eqPos]), value))
  }

  lemma FoldFirst(p: AuthParams, s: string, start: nat)
    requires start <= |s|
    ensures var end, r := SegmentEnd(s, start), ApplySegment(p, s[start..SegmentEnd(s, start)]);
            FoldSegments(p, Segments(s, start)) ==
              if r.Threw? then Threw else if end == |s| then r else FoldSegments(r.value, Segments(s, end + 1))
  {
    hide ApplySegment;
    var end := SegmentEnd(s, start);
    if end == |s| {
      assert s[start..] == s[start..end];
      assert Segments(s, start)[1..] == [];
    } else {
      assert Segments(s, start)[1..] == Segments(s, end + 1);
    }
  }

  lemma EqualsInSegment(s: string, start: nat, end: nat)
    requires start <= end <= |s|
    ensures var e := IndexOf(s, '=', start);
            IndexOf(s[start..end], '=', 0) == if e == -1 || e >= end then -1 else e - start
  {
    var e, segment := IndexOf(s, '=', start), s[start..end];
    assert forall i :: 0 <= i < |segment| ==> segment[i] == s[start + i];
    if e != -1 && e < end {
      assert segment[e - start] == '=';
    }
  }

  // ---------------------------------------------------------------- when reading throws

  /** The text behind the first '=' is a single double quote, blanks aside. */
  predicate LoneQuote(segment: string) {
    var eq := IndexOf(segment, '=', 0);
    eq != -1 && Trim(segment[eq + 1..]) == "\""
  }

  /** A Digest header with a lone double quote for a value. */
  predicate Unreadable(header: string) {
    && NamesDigest(header)
    && var segments := Segments(header[IndexOf(header, ' ', 0) + 1..], 0);
       exists i :: 0 <= i < |segments| && LoneQuote(segments[i])
  }

  lemma SegmentThrows(p: AuthParams, segment: string)
    ensures ApplySegment(p, segment).Threw? <==> LoneQuote(segment)
  {
    hide Trim, IndexOf, ParseParam;
    var eq := IndexOf(segment, '=', 0);
    if eq != -1 {
      var value := Trim(segment[eq + 1..]);
      assert |value| == 1 ==> value == [value[0]];
    }
  }

  lemma {:induction false} FoldThrows(p: AuthParams, segments: seq<string>)
    ensures FoldSegments(p, segments).Threw? <==> exists i :: 0 <= i < |segments| && LoneQuote(segments[i])
    decreases |segments|
  {
    hide ApplySegment, LoneQuote;
    if segments != [] {
      SegmentThrows(p, segments[0]);
      var rest := segments[1..];
      if !LoneQuote(segments[0]) {
        FoldThrows(ApplySegment(p, segments[0]).value, rest);
        if i :| 0 <= i < |rest| && LoneQuote(rest[i]) {
          assert segments[i + 1] == rest[i];
        }
        if i :| 0 <= i < |segments| && LoneQuote(segments[i]) {
          assert rest[i - 1] == segments[i];
        }
      }
    }
  }

  /** Reading a header leaves by an exception exactly when it is a Digest header and the value of some
      comma-separated segment is a lone double quote. */
  lemma HeaderThrows(p: AuthParams, header: string)
    ensures ParseHeader(p, header).Threw? <==> Unreadable(header)
  {
    hide FoldSegments, Segments, LoneQuote, IndexOf;
    if NamesDigest(header) {
      FoldThrows(p, Segments(header[IndexOf(header, ' ', 0) + 1..], 0));
    }
  }

  lemma LoneQuoteThrows(p: AuthParams)
    ensures ParseHeader(p, "Digest uri=\"") == Threw
  {
    hide *;
    var header, segment := "Digest uri=\"", "uri=\"";
    DigestHeader(header, segment);
    QuoteSegment(segment);
    HeaderThrows(p, header);
    assert Unreadable(header) by { OneSegment(header, segment); }
  }

  lemma OneSegment(header: string, segment: string)
    requires NamesDigest(header) && IndexOf(header, ' ', 0) + 1 <= |header|
             && header[IndexOf(header, ' ', 0) + 1..] == segment
    requires IndexOf(segment, ',', 0) == -1 && LoneQuote(segment)
    ensures Unreadable(header)
  {
    hide LoneQuote, NamesDigest, IndexOf;
    assert segment[0..] == segment;
    assert Segments(segment, 0) == [segment];
    assert LoneQuote(Segments(segment, 0)[0]);
  }

  lemma DigestHeader(header: string, segment: string)
    requires header == "Digest" + " " + segment
    ensures IndexOf(header, ' ', 0) == 6 && header[7..] == segment && NamesDigest(header)
  {
    hide IndexOf, Trim;
    assert header[..6] == "Digest" && header[6] == ' ';
    IndexOfFirst(header, ' ', 0, 6);
    TrimTight("Digest");
  }

  lemma QuoteSegment(segment: string)
    requires segment == "uri" + "=" + "\""
    ensures LoneQuote(segment) && IndexOf(segment, ',', 0) == -1
  {
    hide IndexOf, Trim;
    assert segment[3] == '=' && segment[4..] == "\"";
    IndexOfFirst(segment, '=', 0, 3);
    TrimTight("\"");
  }

  // ---------------------------------------------------------------- the loop and the fold

  lemma NameWithComma(name: string)
    requires !Free(name, ',')
    ensures FieldNamed(name) == None
  {
  }

  lemma TrimKeeps(s: string, i: nat)
    requires i < |s| && !IsSpace(s[i])
    ensures !Free(Trim(s), s[i])
  {
    var r := TrimRight(s);
    TrimRightKeeps(s, i);
    TrimLeftKeeps(r, i);
    var t := TrimLeft(r);
    TrimLeftIsTail(r);
    assert t[i - (|r| - |t|)] == r[i];
  }

  lemma {:induction false} TrimRightKeeps(s: string, i: nat)
    requires i < |s| && !IsSpace(s[i])
    ensures i < |TrimRight(s)|
  {
    if IsSpace(s[|s| - 1]) {
      TrimRightKeeps(s[..|s| - 1], i);
    }
  }

  lemma {:induction false} TrimLeftKeeps(s: string, i: nat)
    requires i < |s| && !IsSpace(s[i])
    ensures |s| - |TrimLeft(s)| <= i
  {
    if IsSpace(s[0]) {
      TrimLeftKeeps(s[1..], i - 1);
    }
  }

  /** When the scan of an '='-less segment runs into a later one and its value throws, the segment
      that holds the '=' throws as well. */
  lemma {:induction false} RunOnThrows(p: AuthParams, s: string, start: nat)
    requires start <= |s| && IndexOf(s, '=', start) != -1
    requires TrimDoubleQuotes(Trim(s[IndexOf(s, '=', start) + 1..])).Threw?
    ensures FoldSegments(p, Segments(s, start)) == Threw
    decreases |s| - start
  {
    hide ParseParam, Trim, IndexOf, FoldSegments, Segments, SegmentEnd;
    var eq, end := IndexOf(s, '=', start), SegmentEnd(s, start);
    var value := s[eq + 1..];
    FoldFirst(p, s, start);
    EqualsInSegment(s, start, end);
    if end == |s| {
      assert s[start..end][eq - start + 1..] == value;
    } else {
      CommaAt(s, start);
      if eq < end {
        assert value[end - eq - 1] == ',';
        TrimKeeps(value, end - eq - 1);
      } else {
        assert IndexOf(s, '=', end + 1) == eq;
        RunOnThrows(p, s, end + 1);
      }
    }
  }

  lemma CommaAt(s: string, start: nat)
    requires start <= |s|
    ensures SegmentEnd(s, start) < |s| ==> s[SegmentEnd(s, start)] == ','
  {
    hide IndexOf;
  }

  /** A turn of the loop does what its segment means, or the whole fold throws with it. */
  lemma ScanStepIsSegment(p: AuthParams, s: string, start: nat)
    requires start <= |s|
    ensures ScanStep(p, s, start).Returned? ==> ScanStep(p, s, start) == ApplySegment(p, s[start..SegmentEnd(s, start)])
    ensures ScanStep(p, s, start).Threw? ==> FoldSegments(p, Segments(s, start)) == Threw
  {
    hide ScanStep, ApplySegment, FoldSegments, Segments, IndexOf;
    var eq, end := IndexOf(s, '=', start), SegmentEnd(s, start);
    if eq >= end {
      RunOnNothing(p, s, start);
    } else {
      WithinSegment(p, s, start);
    }
    FoldFirst(p, s, start);
    if eq >= end && ScanStep(p, s, start).Threw? {
      RunOnScan(p, s, start);
      RunOnThrows(p, s, start);
    }
  }

  /** The '=' found belongs to the segment, or there is none at all. */
  lemma WithinSegment(p: AuthParams, s: string, start: nat)
    requires start <= |s| && IndexOf(s, '=', start) < SegmentEnd(s, start)
    ensures ScanStep(p, s, start) == ApplySegment(p, s[start..SegmentEnd(s, start)])
  {
    hide ParseParam, Trim, IndexOf, SegmentEnd;
    var eq, end := IndexOf(s, '=', start), SegmentEnd(s, start);
    EqualsInSegment(s, start, end);
    if eq >= 0 {
      SegmentParts(s, start, eq, end);
    }
  }

  lemma SegmentParts(s: string, start: nat, eq: nat, end: nat)
    requires start <= eq < end <= |s|
    ensures s[start..end][..eq - start] == s[start..eq] && s[start..end][eq - start + 1..] == s[eq + 1..end]
  {
  }

  /** The '=' found is behind the segment: the name then has a comma in it and is none. */
  lemma RunOnNothing(p: AuthParams, s: string, start: nat)
    requires start <= |s| && IndexOf(s, '=', start) >= SegmentEnd(s, start)
    ensures ScanStep(p, s, start).Returned? ==> ScanStep(p, s, start) == ApplySegment(p, s[start..SegmentEnd(s, start)])
  {
    hide FieldNamed, Assign, Trim, IndexOf, SegmentEnd, TrimDoubleQuotes;
    var eq, end := IndexOf(s, '=', start), SegmentEnd(s, start);
    EqualsInSegment(s, start, end);
    CommaAt(s, start);
    CommaInName(s, start, eq, end);
    NameWithComma(Trim(s[start..eq]));
  }

  lemma CommaInName(s: string, start: nat, eq: nat, end: nat)
    requires start <= end < eq <= |s| && s[end] == ','
    ensures !Free(Trim(s[start..eq]), ',')
  {
    hide Trim;
    assert s[start..eq][end - start] == ',';
    TrimKeeps(s[start..eq], end - start);
  }

  lemma RunOnScan(p: AuthParams, s: string, start: nat)
    requires start <= |s| && IndexOf(s, '=', start) >= SegmentEnd(s, start) && ScanStep(p, s, start).Threw?
    ensures IndexOf(s, '=', start) != -1
            && TrimDoubleQuotes(Trim(s[IndexOf(s, '=', start) + 1..])).Threw?
  {
    hide ParseParam, Trim, IndexOf, SegmentEnd, TrimDoubleQuotes;
    var eq := IndexOf(s, '=', start);
    assert s[eq + 1..|s|] == s[eq + 1..];
  }

  /** The scanning loop of the source is the fold over the comma-separated segments. */
  method ScanParameters(initial: AuthParams, parameters: string) returns (result: Outcome<AuthParams>)
    ensures result == FoldSegments(initial, Segments(parameters, 0))
  {
    hide ParseParam, Trim, TrimDoubleQuotes, IndexOf, ApplySegment, FoldSegments, Segments;
    var p, start, cont := initial, 0, true;
    ghost var whole := FoldSegments(initial, Segments(parameters, 0));
    while cont
      invariant cont ==> 0 <= start <= |parameters| && whole == FoldSegments(p, Segments(parameters, start))
      invariant !cont ==> whole == Returned(p)
      decreases cont, |parameters| - start
    {
      ScanStepIsSegment(p, parameters, start);
      FoldFirst(p, parameters, start);
      var pos := IndexOf(parameters, ',', start);
      if pos == -1 {
        pos := |parameters|;
        cont := false;
      }
      ghost var step := ScanStep(p, parameters, start);
      var eqPos := IndexOf(parameters, '=', start);
      if eqPos >= 0 {
        var until := if eqPos < pos then pos else |parameters|;
        var value := TrimDoubleQuotes(Trim(parameters[eqPos + 1..until]));
        if value.Threw? {
          return Threw;
        }
        p := ParseParam(p, Trim(parameters[start..eqPos]), value.value);
      }
      assert step == Returned(p);
      start := pos + 1;
    }
    result := Returned(p);
  }

  /** The whole header; true when the credentials in it are complete. */
  method ParseAuthorizationHeader(initial: AuthParams, header: string)
    returns (complete: bool, result: Outcome<AuthParams>)
    ensures result == ParseHeader(initial, header)
    ensures complete <==>
            NamesDigest(header) && result.Returned? && result.value.username != "" && result.value.response != ""
  {
    hide Trim, IndexOf, FoldSegments, Segments;
    var space := IndexOf(header, ' ', 0);
    if space == -1 {
      return false, Returned(initial);
    }
    var known := CompareIgnoreCase(Trim(header[..space]), "Digest");
    if !known {
      return false, Returned(initial);
    }
    result := ScanParameters(initial, header[space + 1..]);
    complete := result.Returned? && result.value.username != "" && result.value.response != "";
  }
}
