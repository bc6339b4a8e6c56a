/** What a digest header means however it is written: upper or lower case, white space, quotes (AuthHeaderMD5.cpp;
    section 1.2 of RFC 2617). */
module DigestReading {
  import opened Wrappers
  import opened Text
  import opened Digest
  import opened DigestPrinter
  import opened DigestOrder

  /** A parameter is known by its name in any case, and by no other. */
  lemma FieldByName(name: string, field: Field)
    ensures FieldNamed(name) == Some(field) <==> Lower(name) == NameOf(field)
  {
    hide Lower, EqualsIgnoreCase, NameOf;
    NamesAreLower();
    SameUpToCase(name, "nonce");
    SameUpToCase(name, "opaque");
    SameUpToCase(name, "qop");
    SameUpToCase(name, "algorithm");
    SameUpToCase(name, "realm");
    SameUpToCase(name, "username");
    SameUpToCase(name, "domain");
    SameUpToCase(name, "nc");
    SameUpToCase(name, "cnonce");
    SameUpToCase(name, "uri");
    SameUpToCase(name, "response");
    NamesOf();
    assert "opaque"[0] == 'o' && "domain"[0] == 'd' && "cnonce"[0] == 'c' && "nonce"[0] == 'n' && "realm"[0] == 'r';
    assert "qop"[0] == 'q' && "uri"[0] == 'u' && "username"[0] == 'u' && "response"[0] == 'r';
  }

  lemma NamesAreLower()
    ensures Lower("nonce") == "nonce" && Lower("opaque") == "opaque" && Lower("qop") == "qop"
            && Lower("algorithm") == "algorithm" && Lower("realm") == "realm" && Lower("username") == "username"
    ensures Lower("domain") == "domain" && Lower("nc") == "nc" && Lower("cnonce") == "cnonce" && Lower("uri") == "uri"
            && Lower("response") == "response"
  {
  }

  lemma NamesOf()
    ensures NameOf(Nonce) == "nonce" && NameOf(Opaque) == "opaque" && NameOf(Qop) == "qop"
            && NameOf(Algorithm) == "algorithm" && NameOf(Realm) == "realm" && NameOf(Username) == "username"
    ensures NameOf(Domain) == "domain" && NameOf(NonceCount) == "nc" && NameOf(ClientNonce) == "cnonce"
            && NameOf(Uri) == "uri" && NameOf(Response) == "response"
  {
  }

  /** auth-int is meant wherever the value mentions it, MD5-sess where the value is its name, in any case. */
  lemma FlagsRead(p: AuthParams, value: string)
    ensures Assign(p, Qop, value).integrity <==> exists i: nat :: OccursAt(Lower(value), "auth-int", i)
    ensures Assign(p, Algorithm, value).session <==> Lower(value) == "md5-sess"
  {
    hide Find, OccursAt, EqualsIgnoreCase, Lower;
    SameUpToCase(value, "MD5-sess");
    assert Lower("MD5-sess") == "md5-sess" by { SessionLower(); }
  }

  lemma SessionLower()
    ensures Lower("MD5-sess") == "md5-sess"
  {
  }

  /** The header names its scheme before the first blank, in any case. */
  lemma SchemeReads(scheme: string, rest: string)
    requires Free(scheme, ' ')
    ensures var header := scheme + " " + rest;
            IndexOf(header, ' ', 0) == |scheme| && header[|scheme| + 1..] == rest &&
            (NamesDigest(header) <==> Lower(Trim(scheme)) == "digest")
  {
    hide IndexOf, Trim, EqualsIgnoreCase, Lower;
    var header := scheme + " " + rest;
    assert header[..|scheme|] == header[0..|scheme|] == scheme && header[|scheme|] == ' ';
    IndexOfIs(header, ' ', 0, |scheme|);
    SameUpToCase(Trim(scheme), "Digest");
    assert Lower("Digest") == "digest" by { DigestLower(); }
  }

  lemma DigestLower()
    ensures Lower("Digest") == "digest"
  {
  }

  // ---------------------------------------------------------------- one parameter

  /** A parameter as a client may write it. */
  datatype Written = Written(before: string, name: string, between: string, lead: string, quoted: bool, value: string,
                             trail: string)
  {
    function Raw(): string {
      if quoted then "\"" + value + "\"" else value
    }

    function Text(): string {
      before + name + between + "=" + (lead + Raw() + trail)
    }

    predicate Valid() {
      && Blank(before) && Blank(between) && Blank(lead) && Blank(trail)
      && Tight(name) && Free(name, '=') && (quoted || (Tight(value) && value[0] != '"'))
    }
  }

  predicate Tight(s: string) {
    s != "" && !IsSpace(s[0]) && !IsSpace(s[|s| - 1])
  }

  /** Whatever white space stands around name and value, and whether or not the value is quoted. */
  lemma WrittenReads(p: AuthParams, w: Written)
    requires w.Valid()
    ensures ApplySegment(p, w.Text()) == Returned(ParseParam(p, w.name, w.value))
  {
    hide Trim, IndexOf, ParseParam, TrimLeft;
    var head, tail := w.before + w.name + w.between, w.lead + w.Raw() + w.trail;
    var s := w.Text();
    assert s == head + "=" + tail;
    BlanksAreFree(w.before);
    BlanksAreFree(w.between);
    FreeConcat(w.before, w.name, '=');
    FreeConcat(w.before + w.name, w.between, '=');
    assert s[..|head|] == s[0..|head|] == head && s[|head|] == '=' && s[|head| + 1..] == tail;
    IndexOfIs(s, '=', 0, |head|);
    TrimBlanks(w.before, w.name, w.between);
    TrimBlanks(w.lead, w.Raw(), w.trail);
    Unquotes(w);
  }

  lemma BlanksAreFree(s: string)
    requires Blank(s)
    ensures Free(s, '=')
  {
  }

  lemma Unquotes(w: Written)
    requires w.Valid()
    ensures TrimDoubleQuotes(w.Raw()) == Returned(w.value)
  {
    if w.quoted {
      assert w.Raw()[1..|w.Raw()| - 1] == w.value;
    }
  }

  // ---------------------------------------------------------------- the whole header

  function Texts(ws: seq<Written>): (r: seq<string>)
    ensures |r| == |ws|
  {
    seq(|ws|, i requires 0 <= i < |ws| => ws[i].Text())
  }

  /** The parameters one after the other, by name and value alone. */
  function Meaning(p: AuthParams, ws: seq<Written>): AuthParams
    decreases |ws|
  {
    if ws == [] then p else Meaning(ParseParam(p, ws[0].name, ws[0].value), ws[1..])
  }

  lemma {:induction false} TextsFold(p: AuthParams, ws: seq<Written>)
    requires forall i :: 0 <= i < |ws| ==> ws[i].Valid()
    ensures FoldSegments(p, Texts(ws)) == Returned(Meaning(p, ws))
    decreases |ws|
  {
    hide ApplySegment, ParseParam;
    if ws != [] {
      WrittenReads(p, ws[0]);
      assert Texts(ws)[1..] == Texts(ws[1..]);
      TextsFold(ParseParam(p, ws[0].name, ws[0].value), ws[1..]);
    }
  }

  /** Any Digest header of comma-free parameters reads as their names and values, whatever case and white space it is
      written with. */
  lemma HeaderReads(p: AuthParams, scheme: string, ws: seq<Written>)
    requires Free(scheme, ' ') && Lower(Trim(scheme)) == "digest" && ws != []
    requires forall i :: 0 <= i < |ws| ==> ws[i].Valid() && Free(ws[i].Text(), ',')
    ensures ParseHeader(p, scheme + " " + JoinSegments(Texts(ws))) == Returned(Meaning(p, ws))
  {
    hide FoldSegments, Segments, JoinSegments, NamesDigest, Trim, Lower, IndexOf;
    SchemeReads(scheme, JoinSegments(Texts(ws)));
    SegmentsOfJoin(JoinSegments(Texts(ws)), 0, Texts(ws));
    TextsFold(p, ws);
  }
}
