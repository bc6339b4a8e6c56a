/** The digest response against the standard's own formula, and what it says about the parameters it was made from
    (AuthHeaderMD5.cpp; sections 3.2.2.1 to 3.2.2.3 of RFC 2617). */
module DigestStandard {
  import opened Wrappers
  import opened Text
  import opened Digest
  import opened DigestPrinter
  import opened DigestRoundTrip
  import opened DigestResponse

  // ---------------------------------------------------------------- fields between colons

  function Colons(fields: seq<string>): string
    requires fields != []
  {
    if |fields| == 1 then fields[0] else fields[0] + ":" + Colons(fields[1..])
  }

  /** The fields of a text. */
  function Cut(s: string): (r: seq<string>)
    ensures r != []
    decreases |s|
  {
    var colon := IndexOf(s, ':', 0);
    if colon == -1 then [s] else [s[..colon]] + Cut(s[colon + 1..])
  }

  /** Cutting finds the fields again, as long as none but the last holds a colon. */
  lemma {:induction false} CutColons(fields: seq<string>, last: string)
    requires forall i :: 0 <= i < |fields| ==> Free(fields[i], ':')
    ensures Cut(Colons(fields + [last])) == fields + Cut(last)
    decreases |fields|
  {
    hide Cut, Colons;
    if fields == [] {
      assert [] + [last] == [last];
      OneField(last);
    } else {
      var rest := fields[1..] + [last];
      CutColons(fields[1..], last);
      assert fields + [last] == [fields[0]] + rest;
      NextField(fields[0], rest);
      CutHead(fields[0], Colons(rest));
    }
  }

  lemma CutHead(a: string, rest: string)
    requires Free(a, ':')
    ensures Cut(a + ":" + rest) == [a] + Cut(rest)
  {
    hide IndexOf;
    var s, n := a + ":" + rest, |a|;
    assert s[..n] == s[0..n] == a && s[n] == ':' && s[n + 1..] == rest;
    IndexOfIs(s, ':', 0, n);
  }

  lemma OneField(a: string)
    ensures Colons([a]) == a
  {
  }

  // ---------------------------------------------------------------- the texts of the standard

  /** unq(username-value) ":" unq(realm-value) ":" passwd */
  function UserText(p: AuthParams, password: string): string {
    Colons([p.username, p.realm, password])
  }

  /** A1 */
  function FirstText(md5: Md5, p: AuthParams, password: string): string {
    if p.session then Colons([H(md5, UserText(p, password)), p.nonce, p.clientNonce]) else UserText(p, password)
  }

  /** A2 */
  function MethodText(md5: Md5, p: AuthParams, request: string, body: string): string {
    Colons([request, p.uri] + if p.integrity then [H(md5, body)] else [])
  }

  /** What the response hashes, with the nonce count as it is printed. */
  function ResponseText(md5: Md5, p: AuthParams, request: string, password: string, body: string,
                        count: string): string {
    Colons([H(md5, FirstText(md5, p, password)), p.nonce]
           + (if p.integrity then [count, p.clientNonce, "auth-int"] else [])
           + [H(md5, MethodText(md5, p, request, body))])
  }

  function PrintedCount(p: AuthParams): string {
    Hex(ToSizeT(p.nonceCount), 8)
  }

  /** What stands between the nonce and the second hash. */
  function Between(p: AuthParams, count: string): string {
    if p.integrity then count + ":" + (p.clientNonce + ":auth-int:") else ""
  }

  lemma NextField(a: string, rest: seq<string>)
    requires rest != []
    ensures Colons([a] + rest) == a + ":" + Colons(rest)
  {
    assert ([a] + rest)[1..] == rest;
  }

  lemma TwoFields(a: string, b: string)
    ensures Colons([a, b]) == a + ":" + b
  {
    assert [a, b][1..] == [b];
  }

  lemma ThreeFields(a: string, b: string, c: string)
    ensures Colons([a, b, c]) == a + ":" + b + ":" + c
  {
    assert [a, b, c][1..] == [b, c];
    TwoFields(b, c);
  }

  lemma SixFields(a: string, b: string, c: string, d: string, e: string, f: string)
    ensures Colons([a, b, c, d, e, f]) == a + ":" + (b + ":" + (c + ":" + (d + ":" + e + ":" + f)))
  {
    ThreeFields(d, e, f);
    NextField(c, [d, e, f]);
    NextField(b, [c, d, e, f]);
    NextField(a, [b, c, d, e, f]);
    assert [a] + [b, c, d, e, f] == [a, b, c, d, e, f] && [b] + [c, d, e, f] == [b, c, d, e, f];
    assert [c] + [d, e, f] == [c, d, e, f];
  }

  lemma UserTextIs(p: AuthParams, password: string)
    ensures UserText(p, password) == p.username + ":" + p.realm + ":" + password
  {
    ThreeFields(p.username, p.realm, password);
  }

  lemma FirstTextIs(md5: Md5, p: AuthParams, password: string)
    ensures FirstText(md5, p, password)
            == if p.session then H(md5, UserText(p, password)) + ":" + p.nonce + ":" + p.clientNonce
               else UserText(p, password)
  {
    hide H;
    ThreeFields(H(md5, UserText(p, password)), p.nonce, p.clientNonce);
  }

  lemma MethodTextIs(md5: Md5, p: AuthParams, request: string, body: string)
    ensures MethodText(md5, p, request, body)
            == request + ":" + (p.uri + if p.integrity then ":" + H(md5, body) else "")
  {
    hide H;
    if p.integrity {
      assert [request, p.uri] + [H(md5, body)] == [request, p.uri, H(md5, body)];
      ThreeFields(request, p.uri, H(md5, body));
    } else {
      assert [request, p.uri] + [] == [request, p.uri];
      TwoFields(request, p.uri);
    }
  }

  lemma ResponseTextIs(md5: Md5, p: AuthParams, request: string, password: string, body: string, count: string)
    ensures ResponseText(md5, p, request, password, body, count)
            == H(md5, FirstText(md5, p, password)) + ":"
               + (p.nonce + ":" + (Between(p, count) + H(md5, MethodText(md5, p, request, body))))
  {
    hide H, FirstText, MethodText;
    var first, second := H(md5, FirstText(md5, p, password)), H(md5, MethodText(md5, p, request, body));
    if p.integrity {
      assert [first, p.nonce] + [count, p.clientNonce, "auth-int"] + [second]
        == [first, p.nonce, count, p.clientNonce, "auth-int", second];
      SixFields(first, p.nonce, count, p.clientNonce, "auth-int", second);
      assert p.clientNonce + ":" + "auth-int" + ":" + second == p.clientNonce + ":auth-int:" + second;
      assert count + ":" + (p.clientNonce + ":auth-int:" + second)
        == count + ":" + (p.clientNonce + ":auth-int:") + second;
    } else {
      assert [first, p.nonce] + [] + [second] == [first, p.nonce, second];
      ThreeFields(first, p.nonce, second);
      assert "" + second == second;
    }
  }

  /** In all four modes the response is the hash of the standard's text, with the nonce count printed as the source
      prints it. */
  lemma ResponseIsStandard(md5: Md5, request: string, password: string, body: string, p: AuthParams)
    ensures AuthorizationResponse(md5, request, password, body, p)
            == H(md5, ResponseText(md5, p, request, password, body, PrintedCount(p)))
  {
    hide H, Hex, UserText, FirstText, MethodText, ResponseText, Challenge, Between, PrintedCount;
    UserTextIs(p, password);
    FirstTextIs(md5, p, password);
    MethodTextIs(md5, p, request, body);
    ResponseTextIs(md5, p, request, password, body, PrintedCount(p));
    assert RequestText(md5, request, body, p) == MethodText(md5, p, request, body);
    assert HA1(md5, password, p) == H(md5, FirstText(md5, p, password));
    assert HA2(md5, request, body, p) == H(md5, MethodText(md5, p, request, body));
    ChallengeIs(p, HA2(md5, request, body, p));
  }

  lemma ChallengeIs(p: AuthParams, rest: string)
    ensures Challenge(p) + rest == p.nonce + ":" + (Between(p, PrintedCount(p)) + rest)
  {
    hide Hex;
    assert Challenge(p) == p.nonce + ":" + Between(p, PrintedCount(p));
  }

  /** The fields of the three texts, where no field but the last of one holds a colon itself. */
  lemma ResponseFields(md5: Md5, request: string, password: string, body: string, p: AuthParams)
    requires Free(p.username, ':') && Free(p.realm, ':') && Free(p.nonce, ':') && Free(p.clientNonce, ':')
    requires Free(request, ':')
    ensures Cut(UserText(p, password)) == [p.username, p.realm] + Cut(password)
    ensures p.session ==>
              Cut(FirstText(md5, p, password)) == [H(md5, UserText(p, password)), p.nonce] + Cut(p.clientNonce)
    ensures !p.integrity ==> Cut(MethodText(md5, p, request, body)) == [request] + Cut(p.uri)
    ensures p.integrity && Free(p.uri, ':') ==>
              Cut(MethodText(md5, p, request, body)) == [request, p.uri, H(md5, body)]
    ensures Cut(ResponseText(md5, p, request, password, body, PrintedCount(p)))
            == [H(md5, FirstText(md5, p, password)), p.nonce]
               + (if p.integrity then [PrintedCount(p), p.clientNonce, "auth-int"] else [])
               + [H(md5, MethodText(md5, p, request, body))]
  {
    hide H, Cut, Colons, Hex;
    CutColons([p.username, p.realm], password);
    assert [p.username, p.realm] + [password] == [p.username, p.realm, password];
    var user, first := H(md5, UserText(p, password)), H(md5, FirstText(md5, p, password));
    var hashed, second := H(md5, body), H(md5, MethodText(md5, p, request, body));
    HashIsPlain(md5, UserText(p, password));
    HashIsPlain(md5, FirstText(md5, p, password));
    HashIsPlain(md5, body);
    HashIsPlain(md5, MethodText(md5, p, request, body));
    CutColons([user, p.nonce], p.clientNonce);
    assert [user, p.nonce] + [p.clientNonce] == [user, p.nonce, p.clientNonce];
    if p.integrity {
      CountIsPlain(p);
      if Free(p.uri, ':') {
        CutColons([request, p.uri], hashed);
        assert [request, p.uri] + [hashed] == [request, p.uri, hashed];
      }
      var head := [first, p.nonce] + [PrintedCount(p), p.clientNonce, "auth-int"];
      assert Free("auth-int", ':');
      CutColons(head, second);
    } else {
      CutColons([request], p.uri);
      assert [request] + [p.uri] == [request, p.uri] + [];
      CutColons([first, p.nonce], second);
      assert [first, p.nonce] + [second] == [first, p.nonce] + [] + [second];
    }
  }

  lemma HashIsPlain(md5: Md5, text: string)
    ensures Free(H(md5, text), ':') && Cut(H(md5, text)) == [H(md5, text)]
  {
    hide HexText;
    HexTextFree(md5(text));
  }

  lemma CountIsPlain(p: AuthParams)
    ensures Free(PrintedCount(p), ':')
  {
    hide Digits, AllHexChars;
    var n := ToSizeT(p.nonceCount);
    PlainDigits(Digits(n, 16));
  }

  // ---------------------------------------------------------------- what a response says

  /** Texts with colon-free heads are equal part by part. */
  lemma SameHead(a: string, b: string, s: string, t: string)
    requires Free(a, ':') && Free(b, ':') && a + ":" + s == b + ":" + t
    ensures a == b && s == t
  {
    var x, y := a + ":" + s, b + ":" + t;
    assert x[|a|] == ':' && y[|b|] == ':';
    assert forall i :: 0 <= i < |a| ==> x[i] == a[i];
    assert forall i :: 0 <= i < |b| ==> y[i] == b[i];
    assert |a| == |b|;
    assert x[..|a|] == a && y[..|b|] == b && x[|a| + 1..] == s && y[|b| + 1..] == t;
  }

  /** The same user, realm and password; where only one side uses MD5-sess, the other one's three fields are made of
      its session. */
  predicate SameSecret(md5: Md5, p: AuthParams, password: string, q: AuthParams, other: string) {
    if p.session == q.session then
      p.username == q.username && p.realm == q.realm && password == other
      && (p.session ==> p.clientNonce == q.clientNonce)
    else if p.session then
      q.username == H(md5, UserText(p, password)) && q.realm == p.nonce && other == p.clientNonce
    else
      p.username == H(md5, UserText(q, other)) && p.realm == q.nonce && password == q.clientNonce
  }

  predicate SecretsCollide(md5: Md5, p: AuthParams, password: string, q: AuthParams, other: string) {
    || Collide(md5, FirstText(md5, p, password), FirstText(md5, q, other))
    || (p.session && q.session && Collide(md5, UserText(p, password), UserText(q, other)))
  }

  lemma SecretBinds(md5: Md5, p: AuthParams, password: string, q: AuthParams, other: string)
    requires Free(p.username, ':') && Free(p.realm, ':') && Free(p.nonce, ':')
    requires Free(q.username, ':') && Free(q.realm, ':') && Free(q.nonce, ':')
    requires H(md5, FirstText(md5, p, password)) == H(md5, FirstText(md5, q, other))
    ensures SameSecret(md5, p, password, q, other) || SecretsCollide(md5, p, password, q, other)
  {
    hide H, UserText, FirstText, Collide;
    var a, b := UserText(p, password), UserText(q, other);
    EqualHashes(md5, FirstText(md5, p, password), FirstText(md5, q, other));
    FirstTextIs(md5, p, password);
    FirstTextIs(md5, q, other);
    UserTextIs(p, password);
    UserTextIs(q, other);
    HashIsPlain(md5, a);
    HashIsPlain(md5, b);
    if FirstText(md5, p, password) == FirstText(md5, q, other) {
      var x, y := if p.session then H(md5, a) else p.username, if q.session then H(md5, b) else q.username;
      var s, t := if p.session then p.nonce else p.realm, if q.session then q.nonce else q.realm;
      var u, v := if p.session then p.clientNonce else password, if q.session then q.clientNonce else other;
      FirstParts(x, s, u, y, t, v);
      if p.session && q.session {
        EqualHashes(md5, a, b);
        if a == b {
          FirstParts(p.username, p.realm, password, q.username, q.realm, other);
        }
      }
    }
  }

  lemma FirstParts(a: string, b: string, c: string, a': string, b': string, c': string)
    requires Free(a, ':') && Free(a', ':') && Free(b, ':') && Free(b', ':')
    requires a + ":" + b + ":" + c == a' + ":" + b' + ":" + c'
    ensures a == a' && b == b' && c == c'
  {
    assert a + ":" + b + ":" + c == a + ":" + (b + ":" + c);
    assert a' + ":" + b' + ":" + c' == a' + ":" + (b' + ":" + c');
    SameHead(a, a', b + ":" + c, b' + ":" + c');
    SameHead(b, b', c, c');
  }

  predicate SameRequest(p: AuthParams, request: string, body: string, q: AuthParams, request': string,
                        body': string) {
    request == request' && p.uri == q.uri && (p.integrity ==> body == body')
  }

  predicate RequestsCollide(md5: Md5, p: AuthParams, request: string, body: string, q: AuthParams, request': string,
                            body': string) {
    || Collide(md5, MethodText(md5, p, request, body), MethodText(md5, q, request', body'))
    || (p.integrity && Collide(md5, body, body'))
  }

  lemma RequestBinds(md5: Md5, p: AuthParams, request: string, body: string, q: AuthParams, request': string,
                     body': string)
    requires Free(request, ':') && Free(request', ':') && p.integrity == q.integrity
    requires H(md5, MethodText(md5, p, request, body)) == H(md5, MethodText(md5, q, request', body'))
    ensures SameRequest(p, request, body, q, request', body')
            || RequestsCollide(md5, p, request, body, q, request', body')
  {
    hide H, MethodText, Collide;
    EqualHashes(md5, MethodText(md5, p, request, body), MethodText(md5, q, request', body'));
    MethodTextIs(md5, p, request, body);
    MethodTextIs(md5, q, request', body');
    if MethodText(md5, p, request, body) == MethodText(md5, q, request', body') {
      var s, t := if p.integrity then ":" + H(md5, body) else "", if p.integrity then ":" + H(md5, body') else "";
      SameHead(request, request', p.uri + s, q.uri + t);
      SameSuffix(p.uri, q.uri, s, t);
      if p.integrity {
        SameSuffix(":", ":", H(md5, body), H(md5, body'));
        EqualHashes(md5, body, body');
      }
    }
  }

  /** The same nonce and mode and, under auth-int, the same count and client nonce. */
  predicate SameChallenge(p: AuthParams, q: AuthParams) {
    p.nonce == q.nonce && p.integrity == q.integrity
    && (p.integrity ==> p.nonceCount == q.nonceCount && p.clientNonce == q.clientNonce)
  }

  lemma CountBinds(p: AuthParams, q: AuthParams)
    requires PrintedCount(p) == PrintedCount(q)
    ensures p.nonceCount == q.nonceCount
  {
    hide Hex, ParseHex, Trim;
    HexRoundTrip(ToSizeT(p.nonceCount), 8);
    HexRoundTrip(ToSizeT(q.nonceCount), 8);
  }

  /** Behind the first hash: nonce, mode, count, client nonce and second hash are recovered from the text. */
  lemma ChallengeBinds(p: AuthParams, q: AuthParams, a: string, b: string)
    requires Free(p.nonce, ':') && Free(q.nonce, ':') && Free(a, ':') && Free(b, ':') && |a| == |b|
    requires p.nonce + ":" + (Between(p, PrintedCount(p)) + a) == q.nonce + ":" + (Between(q, PrintedCount(q)) + b)
    ensures SameChallenge(p, q) && a == b
  {
    hide PrintedCount;
    var x, y := Between(p, PrintedCount(p)), Between(q, PrintedCount(q));
    SameHead(p.nonce, q.nonce, x + a, y + b);
    SameSuffix(x, y, a, b);
    if p.integrity {
      assert x[|PrintedCount(p)|] == ':';
    }
    if q.integrity {
      assert y[|PrintedCount(q)|] == ':';
    }
    if p.integrity {
      CountIsPlain(p);
      CountIsPlain(q);
      SameHead(PrintedCount(p), PrintedCount(q), p.clientNonce + ":auth-int:", q.clientNonce + ":auth-int:");
      SameSuffix(p.clientNonce, q.clientNonce, ":auth-int:", ":auth-int:");
      CountBinds(p, q);
    }
  }

  /** Equal responses, whatever parameters they were computed from: the same nonce and mode, the same user, realm and
      password, the same method and uri and, under auth-int, the same count, client nonce and body, unless MD5
      collides on one of five named pairs of texts. */
  lemma ResponsesBind(md5: Md5, p: AuthParams, request: string, password: string, body: string,
                      q: AuthParams, request': string, password': string, body': string)
    requires Free(p.username, ':') && Free(p.realm, ':') && Free(p.nonce, ':') && Free(request, ':')
    requires Free(q.username, ':') && Free(q.realm, ':') && Free(q.nonce, ':') && Free(request', ':')
    requires AuthorizationResponse(md5, request, password, body, p)
             == AuthorizationResponse(md5, request', password', body', q)
    ensures (SameChallenge(p, q) && SameSecret(md5, p, password, q, password')
              && SameRequest(p, request, body, q, request', body')) ||
            Collide(md5, ResponseText(md5, p, request, password, body, PrintedCount(p)),
                    ResponseText(md5, q, request', password', body', PrintedCount(q))) ||
            SecretsCollide(md5, p, password, q, password') ||
            RequestsCollide(md5, p, request, body, q, request', body')
  {
    hide H, AuthorizationResponse, FirstText, MethodText, ResponseText, PrintedCount, Between, Collide, SameChallenge,
      SameSecret, SameRequest, SecretsCollide, RequestsCollide;
    var s, t := ResponseText(md5, p, request, password, body, PrintedCount(p)),
      ResponseText(md5, q, request', password', body', PrintedCount(q));
    ResponseIsStandard(md5, request, password, body, p);
    ResponseIsStandard(md5, request', password', body', q);
    EqualHashes(md5, s, t);
    if s == t {
      var a, b := H(md5, MethodText(md5, p, request, body)), H(md5, MethodText(md5, q, request', body'));
      ResponseTextIs(md5, p, request, password, body, PrintedCount(p));
      ResponseTextIs(md5, q, request', password', body', PrintedCount(q));
      HashIsPlain(md5, FirstText(md5, p, password));
      HashIsPlain(md5, FirstText(md5, q, password'));
      HashIsPlain(md5, MethodText(md5, p, request, body));
      HashIsPlain(md5, MethodText(md5, q, request', body'));
      SameHead(H(md5, FirstText(md5, p, password)), H(md5, FirstText(md5, q, password')),
        p.nonce + ":" + (Between(p, PrintedCount(p)) + a), q.nonce + ":" + (Between(q, PrintedCount(q)) + b));
      ChallengeBinds(p, q, a, b);
      SecretBinds(md5, p, password, q, password');
      RequestBinds(md5, p, request, body, q, request', body') by { SameMode(p, q); }
    }
  }

  lemma SameMode(p: AuthParams, q: AuthParams)
    requires SameChallenge(p, q)
    ensures p.integrity == q.integrity
  {
  }

  /** Why the colons matter: the same response for user "a:b" of realm "c" and user "a" of realm "b:c". */
  lemma ColonInUserShifts(md5: Md5, request: string, password: string, body: string)
    ensures var p, q := BLANK.(username := "a:b", realm := "c"), BLANK.(username := "a", realm := "b:c");
            AuthorizationResponse(md5, request, password, body, p)
            == AuthorizationResponse(md5, request, password, body, q)
  {
    hide H;
    var p, q := BLANK.(username := "a:b", realm := "c"), BLANK.(username := "a", realm := "b:c");
    assert Credentials(password, p) == "a:b:c:" + password == Credentials(password, q);
  }

  // ---------------------------------------------------------------- the count of the standard

  function Zeros(n: nat): (s: string)
    ensures |s| == n && forall i :: 0 <= i < n ==> s[i] == '0'
  {
    seq(n, _ => '0')
  }

  /** nc-value: eight hexadecimal digits. */
  function StandardCount(p: AuthParams): string {
    var digits := Digits(ToSizeT(p.nonceCount), 16);
    if |digits| < 8 then Zeros(8 - |digits|) + digits else digits
  }

  function Power16(k: nat): nat {
    if k == 0 then 1 else 16 * Power16(k - 1)
  }

  lemma {:induction false} DigitCount(n: nat, k: nat)
    requires 1 <= k
    ensures |Digits(n, 16)| <= k <==> n < Power16(k)
    decreases k
  {
    if n < 16 {
      PowerIsPositive(k - 1);
    } else if k > 1 {
      DigitCount(n / 16, k - 1);
    }
  }

  lemma {:induction false} PowerIsPositive(k: nat)
    ensures Power16(k) >= 1
  {
    if k > 0 {
      PowerIsPositive(k - 1);
    }
  }

  /** The count is padded with blanks instead of zeros, so it is the standard's exactly when it needs no padding. */
  lemma CountIsStandard(p: AuthParams)
    ensures PrintedCount(p) == StandardCount(p) <==> !(0 <= p.nonceCount < 0x1000_0000)
  {
    hide Digits;
    var n := ToSizeT(p.nonceCount);
    var digits := Digits(n, 16);
    DigitCount(n, 7);
    assert Power16(7) == 0x1000_0000;
    if |digits| < 8 {
      assert PrintedCount(p)[0] == ' ' && StandardCount(p)[0] == '0';
    }
  }

  /** A client that counts as the standard has it is authorized under auth-int only if MD5 collides on the two texts,
      unless its count has eight digits; without auth-int the count does not matter. */
  lemma StandardClient(md5: Md5, request: string, password: string, body: string, p: AuthParams)
    requires p.response == H(md5, ResponseText(md5, p, request, password, body, StandardCount(p)))
    ensures var padded := p.integrity && 0 <= p.nonceCount < 0x1000_0000;
            (!padded ==> IsAuthorized(md5, p, request, password, body)) &&
            (padded && IsAuthorized(md5, p, request, password, body) ==>
              Collide(md5, ResponseText(md5, p, request, password, body, PrintedCount(p)),
                      ResponseText(md5, p, request, password, body, StandardCount(p))))
  {
    hide H, FirstText, MethodText, ResponseText, PrintedCount, StandardCount, AuthorizationResponse;
    var s, t := ResponseText(md5, p, request, password, body, PrintedCount(p)),
      ResponseText(md5, p, request, password, body, StandardCount(p));
    ResponseIsStandard(md5, request, password, body, p);
    CountIsStandard(p);
    ResponseTextIs(md5, p, request, password, body, PrintedCount(p));
    ResponseTextIs(md5, p, request, password, body, StandardCount(p));
    if p.integrity && IsAuthorized(md5, p, request, password, body) {
      EqualHashes(md5, s, t);
      if s == t {
        var lead, rest := H(md5, FirstText(md5, p, password)) + ":" + p.nonce + ":",
          ":" + (p.clientNonce + ":auth-int:") + H(md5, MethodText(md5, p, request, body));
        assert s == lead + (PrintedCount(p) + rest) && t == lead + (StandardCount(p) + rest);
        SamePrefix(lead, lead, PrintedCount(p) + rest, StandardCount(p) + rest);
        SameSuffix(PrintedCount(p), StandardCount(p), rest, rest);
      }
    }
  }

  /** A client that answers by the standard's formula, prints its answer and has it scanned: it comes back field by
      field and is authorized in all modes, with the exception of the counts that are padded under auth-int. */
  lemma StandardAnswerIsAccepted(md5: Md5, request: string, password: string, body: string, p: AuthParams)
    requires CommaFreeInput(p)
    ensures var answer := p.(response := H(md5, ResponseText(md5, p, request, password, body, StandardCount(p))));
            var parsed := ParseHeader(BLANK, GetValue(answer, true));
            parsed == Returned(answer) &&
            (!(p.integrity && 0 <= p.nonceCount < 0x1000_0000) ==>
              IsAuthorized(md5, parsed.value, request, password, body))
  {
    hide HexText, ParseHeader, GetValue, FirstText, MethodText, ResponseText, StandardCount, AuthorizationResponse;
    var text := ResponseText(md5, p, request, password, body, StandardCount(p));
    var answer := p.(response := H(md5, text));
    HexTextFree(md5(text));
    assert CommaFree(answer);
    HeaderRoundTrip(answer);
    ResponseIgnored(md5, p, answer, request, password, body);
    StandardClient(md5, request, password, body, answer);
  }

  lemma ResponseIgnored(md5: Md5, p: AuthParams, q: AuthParams, request: string, password: string, body: string)
    requires q == p.(response := q.response)
    ensures StandardCount(p) == StandardCount(q)
    ensures ResponseText(md5, p, request, password, body, StandardCount(p))
            == ResponseText(md5, q, request, password, body, StandardCount(q))
  {
    hide H, Colons;
  }
}
