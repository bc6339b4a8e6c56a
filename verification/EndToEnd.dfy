/** Across the components: a registration from its challenge to the binding it makes, and a call from the
    registry to the connection it reaches (SipDialog.cpp, AuthHeaderMD5.cpp, WSListener.cpp, SipServer.cpp). */
module EndToEnd {
  import opened Wrappers
  import opened Text
  import opened Locations
  import opened AddressText
  import opened AccountMap
  import opened Messages
  import opened Digest
  import opened DigestPrinter
  import opened DigestRoundTrip
  import opened DigestResponse
  import opened Proxy
  import opened Registrar
  import opened RegistrarRuns
  import opened Routing
  import opened Answering
  import opened Contents

  // ---------------------------------------------------------------- the challenge and its answer

  /** Nothing that goes into the challenge holds a comma. */
  predicate PlainChallenge(config: Config, m: SipMessage, svc: Endpoint, nonce: string) {
    Free(Id(Get(m.headers, "F")), ',') && Free(svc.ip, ',') && Free(config.domain, ',') && Free(nonce, ',')
  }

  /** The sender is an account of the registry's own domain. */
  predicate KnownCaller(config: Config, accounts: Accounts, m: SipMessage) {
    && Keyed(accounts) && FromKey(m) in accounts
    && accounts[FromKey(m)].id != "" && accounts[FromKey(m)].domain == config.domain
  }

  /** The same request once more, with the answer to a challenge computed from a password. */
  function WithAnswer(env: Env, m: SipMessage, password: string, q: AuthParams): SipMessage {
    m.WithHeader("Authorization", GetValue(Answered(env.md5, CommandName(m.command), password, "", q), true))
  }

  /** The client reads back the challenge it was sent. */
  lemma ChallengeReads(env: Env, config: Config, m: SipMessage, svc: Endpoint, nonce: string)
    requires PlainChallenge(config, m, svc, nonce)
    ensures var q := ChallengeParams(env, config, m, svc, nonce);
            ParseHeader(BLANK, GetValue(q, true)) == Returned(q) && CommaFreeInput(q)
  {
    hide ParseHeader, GetValue, HexText, Id;
    var q := ChallengeParams(env, config, m, svc, nonce);
    HexTextFree(env.md5(config.authDomain + nonce));
    FreeConcat("sip:", svc.ip, ',');
    HeaderRoundTrip(q);
  }

  lemma AnswerPresented(env: Env, config: Config, m: SipMessage, password: string, q: AuthParams)
    requires CommaFreeInput(q)
    ensures Presented(config.domain, WithAnswer(env, m, password, q).headers)
            == Returned(Answered(env.md5, CommandName(m.command), password, "", q)
                        .(domain := if q.domain == "" then config.domain else q.domain))
  {
    hide ParseHeader, GetValue, AuthorizationResponse, CommaFreeInput, CommandName;
    AnsweredHeaderIsAccepted(env.md5, CommandName(m.command), password, "", q);
  }

  lemma AnswerReads(env: Env, m: SipMessage, password: string, q: AuthParams)
    ensures var m2 := WithAnswer(env, m, password, q);
            FromKey(m2) == FromKey(m) && ToKey(m2) == ToKey(m) && m2.command == m.command
            && m2.MaxForwards() == m.MaxForwards() && m2.Expires() == m.Expires()
  {
    hide GetValue, AuthorizationResponse, KeyOf, ParseInt;
    HeaderNames();
  }

  /** The digest hash or the hash of the password collides on two different texts. */
  predicate PasswordsCollide(env: Env, request: string, q: AuthParams, password: string, stored: string) {
    || Collide(env.md5, DigestText(env.md5, request, stored, "", q), DigestText(env.md5, request, password, "", q))
    || FirstHashCollides(env.md5, q, stored, password)
  }

  /** The answer to a challenge is granted when it was computed from the account's password, and otherwise only
      if MD5 collides on one of the texts named. */
  lemma AnswerDecides(env: Env, config: Config, accounts: Accounts, m: SipMessage, password: string, q: AuthParams,
                      now: int)
    requires m.command.Register? || (!m.command.Response? && !LiveAt(accounts, FromKey(m), now))
    requires m.MaxForwards() != 0 && KnownCaller(config, accounts, m)
    requires CommaFreeInput(q) && q.domain == "" && q.username == Id(Get(m.headers, "F"))
    ensures var stored := accounts[FromKey(m)].password;
            var granted := UpdateGranted(env, config, accounts, WithAnswer(env, m, password, q), now);
            var p := Answered(env.md5, CommandName(m.command), password, "", q).(domain := config.domain);
            (password == stored ==> granted) &&
            (granted ==> password == stored || PasswordsCollide(env, CommandName(m.command), p, password, stored))
  {
    hide Presented, WithAnswer, AuthorizationResponse, KeyOf, CommandName, ParseInt, LiveAt, Id, PasswordsCollide,
      Keyed, CommaFreeInput;
    var m2, request := WithAnswer(env, m, password, q), CommandName(m.command);
    var p := Answered(env.md5, request, password, "", q).(domain := config.domain);
    var e := accounts[FromKey(m)];
    AnswerPresented(env, config, m, password, q);
    AnswerReads(env, m, password, q);
    OwnKey(accounts, FromKey(m));
    ResolutionIsStable(Get(m.headers, "F"), e);
    assert PresentedKey(p) == FromKey(m);
    assert Permitted(env, config, accounts, m2, p) <==> IsAuthorized(env.md5, p, request, e.password, "");
    DomainNotHashed(env.md5, request, password, q, config.domain);
    if IsAuthorized(env.md5, p, request, e.password, "") {
      AcceptedPassword(env, request, p, password, e.password);
    }
  }

  lemma DomainNotHashed(md5: Md5, request: string, password: string, q: AuthParams, domain: string)
    ensures var p := Answered(md5, request, password, "", q).(domain := domain);
            p.response == AuthorizationResponse(md5, request, password, "", p)
  {
    hide H, Hex;
  }

  lemma AcceptedPassword(env: Env, request: string, p: AuthParams, password: string, stored: string)
    requires p.response == AuthorizationResponse(env.md5, request, password, "", p)
             && IsAuthorized(env.md5, p, request, stored, "")
    ensures password == stored || PasswordsCollide(env, request, p, password, stored)
  {
    hide H, FirstHashCollides, DigestText, AuthorizationResponse, RequestText;
    AcceptedResponseBinds(env.md5, p, request, stored, "", request, password, "");
  }

  /** A whole registration.  A REGISTER without credentials changes no binding and is answered with 401; the
      challenge reads back; the same request with an answer computed from the account's password is answered
      with 200 and keeps To, if that is an account, reachable until exactly its expiry; and a 200 for another
      password means a collision of MD5. */
  lemma ChallengeThenRegister(env: Env, config: Config, accounts: Accounts, m: SipMessage, tag: nat, svc: Endpoint,
                              nonce: string, now: Time, password: string, svc2: Endpoint, nonce2: string, now2: Time)
    requires m.command.Register? && m.MaxForwards() != 0 && "Authorization" !in m.headers
    requires Single(accounts) && KnownCaller(config, accounts, m)
    requires PlainChallenge(config, m, svc, nonce) && now <= now2
    ensures var s := MessageStep(env, config, accounts, m, tag, svc, nonce, now);
            |s.replies| == 1 && Status(s.replies) == Some(401) && SameView(s.accounts, accounts, now) &&
            var challenge := ParseHeader(BLANK, Get(s.replies[0].headers, "WWW-Authenticate"));
            challenge == Returned(ChallengeParams(env, config, m, svc, nonce)) &&
            var m2 := WithAnswer(env, m, password, challenge.value);
            var s2 := MessageStep(env, config, s.accounts, m2, s.tag, svc2, nonce2, now2);
            var stored := accounts[FromKey(m)].password;
            var p := Answered(env.md5, CommandName(m.command), password, "", challenge.value).(domain := config.domain);
            |s2.replies| == 1 && (Status(s2.replies) == Some(200) || Status(s2.replies) == Some(401)) &&
            (password == stored ==> Status(s2.replies) == Some(200)) &&
            (Status(s2.replies) == Some(200) ==>
              (password == stored || PasswordsCollide(env, CommandName(m.command), p, password, stored)) &&
              forall t: int :: now2 <= t ==>
                (LiveAt(s2.accounts, ToKey(m), t)
                 <==> ToKey(m) in accounts && m.Expires() > 0 && t <= now2 + m.Expires()))
  {
    hide MessageStep, UpdateGranted, ParseHeader, GetValue, KeyOf, ParseInt, LiveAt, PasswordsCollide,
      ChallengeParams, WithAnswer, CommandName, SameView, Single, Unreadable, PlainChallenge, CommaFreeInput,
      KnownCaller, AuthorizationResponse;
    var s := MessageStep(env, config, accounts, m, tag, svc, nonce, now);
    RegisterAnswer(env, config, accounts, m, tag, svc, nonce, now);
    NoCredentials(env, config, accounts, m, now);
    StepEffect(env, config, accounts, m, tag, svc, nonce, now);
    ChallengeReads(env, config, m, svc, nonce);
    var q := ChallengeParams(env, config, m, svc, nonce);
    var m2 := WithAnswer(env, m, password, q);
    StaysSingle(env, config, accounts, m, tag, svc, nonce, now);
    StaysKnown(config, accounts, s.accounts, m, now);
    ChallengeShape(env, config, m, svc, nonce);
    AnswerDecides(env, config, s.accounts, m, password, q, now2);
    AnswerPresented(env, config, m, password, q);
    AnswerReads(env, m, password, q);
    GarbledThrows(config.domain, m2);
    RegisterAnswer(env, config, s.accounts, m2, s.tag, svc2, nonce2, now2);
    if UpdateGranted(env, config, s.accounts, m2, now2) {
      BoundUntil(env, config, s.accounts, m2, s.tag, svc2, nonce2, now2);
    }
  }

  /** A granted update leaves To live exactly until its expiry, if To is an account at all. */
  lemma BoundUntil(env: Env, config: Config, accounts: Accounts, m: SipMessage, tag: nat,
                   svc: Endpoint, nonce: string, now: Time)
    requires Single(accounts) && UpdateGranted(env, config, accounts, m, now)
    ensures var after := MessageStep(env, config, accounts, m, tag, svc, nonce, now).accounts;
            forall t: int :: now <= t ==>
              (LiveAt(after, ToKey(m), t) <==> ToKey(m) in accounts && m.Expires() > 0 && t <= now + m.Expires())
  {
    hide MessageStep, UpdateGranted, KeyOf, ParseInt, LiveAt, Single;
    var after := MessageStep(env, config, accounts, m, tag, svc, nonce, now).accounts;
    Conservation(env, config, accounts, m, tag, svc, nonce, now);
    forall t: int | now <= t
      ensures LiveAt(after, ToKey(m), t) <==> ToKey(m) in accounts && m.Expires() > 0 && t <= now + m.Expires()
    {
      if ToKey(m) in accounts {
        RegisteredUntil(env, config, accounts, m, tag, svc, nonce, now, t);
      } else {
        NotLive(after, ToKey(m), t);
      }
    }
  }

  /** A 200 to a REGISTER that asks for a binding means that To is live afterwards, and at the sender's address, if and
      only if To is an account; in a registry of single locations it then stays live exactly until its expiry. */
  lemma ConfirmedIsBound(env: Env, config: Config, accounts: Accounts, m: SipMessage, tag: nat,
                         svc: Endpoint, nonce: string, now: Time)
    requires m.command.Register? && m.Expires() > 0
    requires Status(MessageStep(env, config, accounts, m, tag, svc, nonce, now).replies) == Some(200)
    ensures var after := MessageStep(env, config, accounts, m, tag, svc, nonce, now).accounts;
            (LiveAt(after, ToKey(m), now) <==> ToKey(m) in accounts) &&
            (ToKey(m) in accounts ==>
              var l := LiveLocation(after, ToKey(m), now);
              l.proto == m.proto && l.host == m.address.ip && l.port == m.address.port && l.prefix == SipPrefix &&
              l.expire == m.Expires() && l.registered == now &&
              if LiveAt(accounts, ToKey(m), now) then
                var was := LiveLocation(accounts, ToKey(m), now);
                l.tag == was.tag && l.line == was.line && l.rinstance == was.rinstance
              else l.tag == l.line == l.rinstance == "") &&
            (Single(accounts) ==>
              forall t: int :: now <= t ==>
                (LiveAt(after, ToKey(m), t) <==> ToKey(m) in accounts && t <= now + m.Expires()))
  {
    hide MessageStep, UpdateGranted, KeyOf, ParseInt, LiveAt, LiveLocation, Single, Garbled, Located;
    ConfirmedIsGranted(env, config, accounts, m, tag, svc, nonce, now);
    NextIsAfter(env, config, accounts, m, tag, svc, nonce, now);
    if Single(accounts) {
      BoundUntil(env, config, accounts, m, tag, svc, nonce, now);
    }
    if ToKey(m) in accounts {
      BoundHere(env, config, accounts, m, now);
    } else {
      NotLive(accounts, ToKey(m), now);
    }
  }

  /** The binding a granted update writes: the sender's place and the expiry, with what is not written left as it was
      in the first live binding. */
  lemma BoundHere(env: Env, config: Config, accounts: Accounts, m: SipMessage, now: Time)
    requires UpdateGranted(env, config, accounts, m, now) && ToKey(m) in accounts && m.Expires() > 0
    ensures LiveNext(env, config, accounts, m, now)
    ensures var l := NextLocation(env, config, accounts, m, now);
            l.proto == m.proto && l.host == m.address.ip && l.port == m.address.port && l.prefix == SipPrefix &&
            l.expire == m.Expires() && l.registered == now &&
            if LiveAt(accounts, ToKey(m), now) then
              var was := LiveLocation(accounts, ToKey(m), now);
              l.tag == was.tag && l.line == was.line && l.rinstance == was.rinstance
            else l.tag == l.line == l.rinstance == ""
  {
    hide UpdateGranted, KeyOf, ParseInt, Clean;
  }

  /** The 200 to a REGISTER for an account says the expiry, without the credentials, and what it says holds: in a
      registry of single locations To is live exactly until now plus the number in its Expires header, and not at all
      where that is not positive. */
  lemma ConfirmationSays(env: Env, config: Config, accounts: Accounts, m: SipMessage, tag: nat,
                         svc: Endpoint, nonce: string, now: Time, r: SipMessage, d: Int32)
    requires m.command.Register? && ToKey(m) in accounts
    requires MessageStep(env, config, accounts, m, tag, svc, nonce, now).replies == [r] && r.code == 200
    ensures ParseInt(Get(r.headers, "Expires"), d) == m.Expires() && "Authorization" !in r.headers
    ensures var after := MessageStep(env, config, accounts, m, tag, svc, nonce, now).accounts;
            Single(accounts) ==>
              forall t: int :: now <= t ==>
                (LiveAt(after, ToKey(m), t) <==>
                  ParseInt(Get(r.headers, "Expires"), d) > 0 && t <= now + ParseInt(Get(r.headers, "Expires"), d))
  {
    hide MessageStep, UpdateGranted, KeyOf, ParseInt, Dec, LiveAt, Single, ChallengeText, TaggedTo, Noted,
      ReplaceParameter;
    OnlyAnswer(env, config, accounts, m, tag, svc, nonce, now, r);
    ConfirmedIsGranted(env, config, accounts, m, tag, svc, nonce, now);
    AnswersSay(env, config, accounts, m, tag, svc, nonce, now, r, "Expires");
    AnswersSay(env, config, accounts, m, tag, svc, nonce, now, r, "Authorization");
    ExpiryHeader("Expires");
    CredentialsHeader("Authorization");
    DecRoundTrip(m.Expires(), d);
    if Single(accounts) {
      BoundUntil(env, config, accounts, m, tag, svc, nonce, now);
    }
  }

  lemma OnlyAnswer(env: Env, config: Config, accounts: Accounts, m: SipMessage, tag: nat,
                   svc: Endpoint, nonce: string, now: Time, r: SipMessage)
    requires m.command.Register? && MessageStep(env, config, accounts, m, tag, svc, nonce, now).replies == [r]
    ensures r.command.Response?
  {
    hide MessageStep, ParseInt, Garbled, UpdateGranted;
    if m.MaxForwards() == 0 {
      Dropped(env, config, accounts, m, tag, svc, nonce, now);
    } else if Garbled(m) {
      RegisterThrows(env, config, accounts, m, tag, svc, nonce, now);
    } else {
      RegisterAnswer(env, config, accounts, m, tag, svc, nonce, now);
    }
  }

  /** Any refusal, to any request: the challenge reads back as the nonce it was made with, the registry's domain for a
      realm, the server's address for a uri, the sender's user and the hash of the dialog's domain and the nonce. */
  lemma RefusalReads(env: Env, config: Config, accounts: Accounts, m: SipMessage, tag: nat, svc: Endpoint,
                     nonce: string, now: Time, r: SipMessage)
    requires !m.command.Response? && !m.command.Invalid? && PlainChallenge(config, m, svc, nonce)
    requires r in MessageStep(env, config, accounts, m, tag, svc, nonce, now).replies
    requires r.command.Response? && r.code == 401
    ensures var q := ParseHeader(BLANK, Get(r.headers, "WWW-Authenticate"));
            q.Returned? && q.value.nonce == nonce && q.value.realm == config.domain && q.value.uri == "sip:" + svc.ip
            && q.value.username == Id(Get(m.headers, "F")) && q.value.domain == "" && !q.value.integrity
            && !q.value.session && q.value.opaqueData == HexText(env.md5(config.authDomain + nonce))
  {
    hide MessageStep, UpdateMade, ParseHeader, GetValue, KeyOf, ParseInt, Dec, TaggedTo, Noted, ReplaceParameter, Id,
      HexText;
    AnswersSay(env, config, accounts, m, tag, svc, nonce, now, r, "WWW-Authenticate");
    ChallengeHeader("WWW-Authenticate");
    ChallengeReads(env, config, m, svc, nonce);
  }

  lemma ConfirmedIsGranted(env: Env, config: Config, accounts: Accounts, m: SipMessage, tag: nat,
                           svc: Endpoint, nonce: string, now: Time)
    requires m.command.Register?
    requires Status(MessageStep(env, config, accounts, m, tag, svc, nonce, now).replies) == Some(200)
    ensures UpdateGranted(env, config, accounts, m, now)
  {
    hide MessageStep, UpdateGranted, ParseInt, Garbled;
    if m.MaxForwards() == 0 {
      Dropped(env, config, accounts, m, tag, svc, nonce, now);
    } else if Garbled(m) {
      RegisterThrows(env, config, accounts, m, tag, svc, nonce, now);
    } else {
      RegisterAnswer(env, config, accounts, m, tag, svc, nonce, now);
    }
  }

  lemma NoCredentials(env: Env, config: Config, accounts: Accounts, m: SipMessage, now: int)
    requires "Authorization" !in m.headers
    ensures !UpdateGranted(env, config, accounts, m, now)
  {
    hide KeyOf, LiveAt, IsAuthorized, ParseInt;
  }

  lemma ChallengeShape(env: Env, config: Config, m: SipMessage, svc: Endpoint, nonce: string)
    ensures var q := ChallengeParams(env, config, m, svc, nonce);
            q.domain == "" && q.username == Id(Get(m.headers, "F"))
  {
    hide Id, H;
  }

  lemma StaysKnown(config: Config, accounts: Accounts, after: Accounts, m: SipMessage, now: int)
    requires KnownCaller(config, accounts, m) && SameView(after, accounts, now)
    ensures KnownCaller(config, after, m) && after[FromKey(m)].password == accounts[FromKey(m)].password
    ensures ToKey(m) in accounts <==> ToKey(m) in after
  {
    hide Clean, KeyOf;
    assert forall k :: k in after ==> SameEntry(after[k], accounts[k], now);
    assert forall k :: k in after ==> after[k].Key() == accounts[k].Key();
  }
}
