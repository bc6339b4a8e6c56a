/** The digest response (AuthHeaderMD5.cpp; RFC 2617, section 3.2.2).  MD5 is a parameter: nothing is
    assumed about it but the length of its result. */
module DigestResponse {
  import opened Wrappers
  import opened Text
  import opened Digest
  import opened DigestPrinter
  import opened DigestRoundTrip

  function H(md5: Md5, data: string): (r: string)
    ensures |r| == 32
  {
    HexText(md5(data))
  }

  function KD(md5: Md5, secret: string, data: string): string {
    H(md5, secret + ":" + data)
  }

  /** What the first hash is taken of: user, realm and password. */
  function Credentials(password: string, p: AuthParams): string {
    p.username + ":" + p.realm + ":" + password
  }

  function SessionText(md5: Md5, password: string, p: AuthParams): string {
    H(md5, Credentials(password, p)) + ":" + p.nonce + ":" + p.clientNonce
  }

  function HA1(md5: Md5, password: string, p: AuthParams): (r: string)
    ensures |r| == 32
  {
    H(md5, if p.session then SessionText(md5, password, p) else Credentials(password, p))
  }

  /** What the second hash is taken of: method, uri and, under auth-int, the hash of the body. */
  function RequestText(md5: Md5, request: string, body: string, p: AuthParams): string {
    request + ":" + p.uri + if p.integrity then ":" + H(md5, body) else ""
  }

  function HA2(md5: Md5, request: string, body: string, p: AuthParams): (r: string)
    ensures |r| == 32
  {
    H(md5, RequestText(md5, request, body, p))
  }

  function Challenge(p: AuthParams): string {
    p.nonce + ":" + if p.integrity then Hex(ToSizeT(p.nonceCount), 8) + ":" + p.clientNonce + ":" + "auth-int" + ":"
      else ""
  }

  function AuthorizationResponse(md5: Md5, request: string, password: string, body: string, p: AuthParams): string {
    KD(md5, HA1(md5, password, p), Challenge(p) + HA2(md5, request, body, p))
  }

  predicate IsAuthorized(md5: Md5, p: AuthParams, request: string, password: string, body: string) {
    AuthorizationResponse(md5, request, password, body, p) == p.response
  }

  /** The client side: fill in the response for these parameters. */
  function Answered(md5: Md5, request: string, password: string, body: string, p: AuthParams): AuthParams {
    p.(response := AuthorizationResponse(md5, request, password, body, p))
  }

  predicate CommaFreeInput(p: AuthParams) {
    CommaFree(p.(response := ""))
  }

  /** A response computed with the password, printed into a header and scanned by the server, comes back
      field by field and is accepted, for MD5 and MD5-sess, with and without integrity protection. */
  lemma AnsweredHeaderIsAccepted(md5: Md5, request: string, password: string, body: string, p: AuthParams)
    requires CommaFreeInput(p)
    ensures var answer := Answered(md5, request, password, body, p);
            var parsed := ParseHeader(BLANK, GetValue(answer, true));
            parsed == Returned(answer) && IsAuthorized(md5, parsed.value, request, password, body)
  {
    hide ParseHeader, GetValue, HexText, Hex;
    var answer := Answered(md5, request, password, body, p);
    var secret, data := HA1(md5, password, p), Challenge(p) + HA2(md5, request, body, p);
    HexTextFree(md5(secret + ":" + data));
    assert CommaFree(answer);
    HeaderRoundTrip(answer);
    assert AuthorizationResponse(md5, request, password, body, answer) == answer.response;
  }

  // ---------------------------------------------------------------- what a response binds

  predicate Collide(md5: Md5, a: string, b: string) {
    a != b && md5(a) == md5(b)
  }

  lemma EqualHashes(md5: Md5, a: string, b: string)
    requires H(md5, a) == H(md5, b)
    ensures a == b || Collide(md5, a, b)
  {
    hide HexText;
    HexTextInjective(md5(a), md5(b));
  }

  lemma SamePrefix(a: string, b: string, s: string, t: string)
    requires |a| == |b| && a + s == b + t
    ensures a == b && s == t
  {
    assert a == (a + s)[..|a|] && b == (b + t)[..|b|];
    assert s == (a + s)[|a|..] && t == (b + t)[|b|..];
  }

  lemma SameSuffix(a: string, b: string, s: string, t: string)
    requires |s| == |t| && a + s == b + t
    ensures a == b && s == t
  {
    assert |a| == |b|;
    SamePrefix(a, b, s, t);
  }

  predicate FirstHashCollides(md5: Md5, p: AuthParams, password: string, other: string) {
    || Collide(md5, Credentials(password, p), Credentials(other, p))
    || (p.session && Collide(md5, SessionText(md5, password, p), SessionText(md5, other, p)))
  }

  predicate SecondHashCollides(md5: Md5, p: AuthParams, request: string, body: string, request': string,
                               body': string) {
    || Collide(md5, RequestText(md5, request, body, p), RequestText(md5, request', body', p))
    || (p.integrity && Collide(md5, body, body'))
  }

  /** Equal first hashes come from equal passwords, unless the hash collides on texts named here. */
  lemma FirstHashBinds(md5: Md5, p: AuthParams, password: string, other: string)
    requires HA1(md5, password, p) == HA1(md5, other, p)
    ensures password == other || FirstHashCollides(md5, p, password, other)
  {
    hide H;
    if p.session {
      var s, t := SessionText(md5, password, p), SessionText(md5, other, p);
      EqualHashes(md5, s, t);
      if s == t {
        var a, b, rest := H(md5, Credentials(password, p)), H(md5, Credentials(other, p)),
          ":" + p.nonce + ":" + p.clientNonce;
        assert s == a + rest && t == b + rest;
        SamePrefix(a, b, rest, rest);
        EqualHashes(md5, Credentials(password, p), Credentials(other, p));
      }
    } else {
      EqualHashes(md5, Credentials(password, p), Credentials(other, p));
    }
    var lead := p.username + ":" + p.realm + ":";
    if Credentials(password, p) == Credentials(other, p) {
      SamePrefix(lead, lead, password, other);
    }
  }

  /** Equal second hashes come from equal methods and, under auth-int, equal bodies. */
  lemma SecondHashBinds(md5: Md5, p: AuthParams, request: string, body: string, request': string, body': string)
    requires HA2(md5, request, body, p) == HA2(md5, request', body', p)
    ensures (request == request' && (p.integrity ==> body == body')) ||
            SecondHashCollides(md5, p, request, body, request', body')
  {
    hide H;
    var s, t := RequestText(md5, request, body, p), RequestText(md5, request', body', p);
    EqualHashes(md5, s, t);
    if s == t {
      if p.integrity {
        var a, b := ":" + p.uri + ":" + H(md5, body), ":" + p.uri + ":" + H(md5, body');
        assert s == request + a && t == request' + b;
        SameSuffix(request, request', a, b);
        SameSuffix(":" + p.uri + ":", ":" + p.uri + ":", H(md5, body), H(md5, body'));
        EqualHashes(md5, body, body');
      } else {
        var a := ":" + p.uri;
        assert s == request + a && t == request' + a;
        SameSuffix(request, request', a, a);
      }
    }
  }

  function DigestText(md5: Md5, request: string, password: string, body: string, p: AuthParams): string {
    HA1(md5, password, p) + ":" + (Challenge(p) + HA2(md5, request, body, p))
  }

  /** A response the server accepts was computed for the server's method, with the account's password
      and, under auth-int, for the server's body, unless MD5 collides on one of five named pairs. */
  lemma AcceptedResponseBinds(md5: Md5, p: AuthParams,
                              request: string, password: string, body: string,
                              request': string, password': string, body': string)
    requires p.response == AuthorizationResponse(md5, request', password', body', p)
    requires IsAuthorized(md5, p, request, password, body)
    ensures (password == password' && request == request' && (p.integrity ==> body == body')) ||
            Collide(md5, DigestText(md5, request, password, body, p), DigestText(md5, request', password', body', p)) ||
            FirstHashCollides(md5, p, password, password') ||
            SecondHashCollides(md5, p, request, body, request', body')
  {
    hide H, HA1, HA2, Challenge, Collide, FirstHashCollides, SecondHashCollides;
    var s, t := DigestText(md5, request, password, body, p), DigestText(md5, request', password', body', p);
    EqualHashes(md5, s, t);
    if s == t {
      var a, b := HA1(md5, password, p), HA1(md5, password', p);
      var x, y := Challenge(p) + HA2(md5, request, body, p), Challenge(p) + HA2(md5, request', body', p);
      SamePrefix(a, b, ":" + x, ":" + y) by {
        assert s == a + (":" + x) && t == b + (":" + y);
      }
      SamePrefix(":", ":", x, y);
      SamePrefix(Challenge(p), Challenge(p), HA2(md5, request, body, p), HA2(md5, request', body', p));
      FirstHashBinds(md5, p, password, password');
      SecondHashBinds(md5, p, request, body, request', body');
    }
  }
}
