/** What the messages the server sends say, header by header: forwarded requests and answers (SipDialog.cpp; sections
    8.2.6, 10.3 and 16.6 of RFC 3261). */
module Contents {
  import opened Text
  import opened Locations
  import opened AddressText
  import opened AccountMap
  import opened Messages
  import opened Digest
  import opened DigestPrinter
  import opened DigestResponse
  import opened Proxy
  import opened Registrar
  import opened RegistrarRuns
  import opened Routing
  import opened Answering
  import opened Parameters

  // ---------------------------------------------------------------- headers

  /** The headers the server writes itself. */
  datatype Header = Via | To | Length | Agent | Allow | Hops | Expiry | Credentials | Challenging | Accept
                  | AcceptEncoding | AcceptLanguage | Supported | AllowEvents | Copied

  function HeaderNamed(n: string): Header {
    if |n| == 1 then
      if n[0] == 'V' then Via else if n[0] == 'T' then To else if n[0] == 'L' then Length
      else if n[0] == 'K' then Supported else Copied
    else if |n| < 8 then
      if n == "Allow" then Allow else if n == "Accept" then Accept else if n == "Expires" then Expiry else Copied
    else if |n| < 13 then
      if n == "User-Agent" then Agent else if n == "Max-Forwards" then Hops
      else if n == "Allow-Events" then AllowEvents else Copied
    else if n == "Authorization" then Credentials
    else if n == "WWW-Authenticate" then Challenging
    else if n == "Accept-Encoding" then AcceptEncoding
    else if n == "Accept-Language" then AcceptLanguage
    else Copied
  }

  lemma ShortHeader(n: string)
    ensures (HeaderNamed(n) == Via <==> n == "V") && (HeaderNamed(n) == To <==> n == "T")
            && (HeaderNamed(n) == Length <==> n == "L") && (HeaderNamed(n) == Supported <==> n == "K")
    ensures HeaderNamed("F") == Copied
  {
  }

  lemma Letters()
    ensures HeaderNamed("V") == Via && HeaderNamed("T") == To && HeaderNamed("L") == Length
            && HeaderNamed("F") == Copied
  {
    ShortHeader("V");
  }

  lemma ViaHeader(n: string)
    ensures HeaderNamed(n) == Via <==> n == "V"
  {
    ShortHeader(n);
  }

  lemma AllowHeader(n: string)
    ensures HeaderNamed(n) == Allow <==> n == "Allow"
  {
    assert |"Allow"| == 5;
  }

  lemma AcceptHeader(n: string)
    ensures HeaderNamed(n) == Accept <==> n == "Accept"
  {
    assert |"Accept"| == 6 && |"Allow"| == 5;
  }

  lemma ExpiryHeader(n: string)
    ensures HeaderNamed(n) == Expiry <==> n == "Expires"
  {
    assert |"Expires"| == 7 && |"Accept"| == 6 && |"Allow"| == 5;
  }

  lemma AgentHeader(n: string)
    ensures HeaderNamed(n) == Agent <==> n == "User-Agent"
  {
    assert |"User-Agent"| == 10;
  }

  lemma HopsHeader(n: string)
    ensures HeaderNamed(n) == Hops <==> n == "Max-Forwards"
  {
    assert |"Max-Forwards"| == 12 && |"User-Agent"| == 10;
  }

  lemma EventsHeader(n: string)
    ensures HeaderNamed(n) == AllowEvents <==> n == "Allow-Events"
  {
    assert |"Allow-Events"| == 12 && "Max-Forwards"[0] == 'M' && "Allow-Events"[0] == 'A' && |"User-Agent"| == 10;
  }

  lemma CredentialsHeader(n: string)
    ensures HeaderNamed(n) == Credentials <==> n == "Authorization"
  {
    assert |"Authorization"| == 13;
  }

  lemma ChallengeHeader(n: string)
    ensures HeaderNamed(n) == Challenging <==> n == "WWW-Authenticate"
  {
    assert |"WWW-Authenticate"| == 16 && |"Authorization"| == 13;
  }

  lemma AcceptedHeader(n: string)
    ensures HeaderNamed(n) == AcceptEncoding <==> n == "Accept-Encoding"
    ensures HeaderNamed(n) == AcceptLanguage <==> n == "Accept-Language"
  {
    assert |"Accept-Encoding"| == |"Accept-Language"| == 15 && |"WWW-Authenticate"| == 16 && |"Authorization"| == 13;
    assert "Accept-Encoding"[7] == 'E' && "Accept-Language"[7] == 'L';
  }

  // ---------------------------------------------------------------- forwarded requests

  function WireName(p: Proto): string {
    match p
    case NoProto => ""
    case Udp => "UDP"
    case Tcp => "TCP"
    case Ws => "WS"
  }

  lemma WireNameIs(p: Proto)
    ensures Upper(ProtoName(p)) == WireName(p)
  {
  }

  /** `v` is `via` with its first word naming the transport, if it has a blank behind one, and something behind it. */
  predicate WithTransport(via: string, p: Proto, behind: string, v: string) {
    && (forall i :: 0 < i < |via| && via[i] == ' ' && Free(via[..i], ' ') ==>
          v == "SIP/2.0/" + WireName(p) + via[i..] + behind)
    && (via == "" || via[0] == ' ' || Free(via, ' ') ==> v == via + behind)
  }

  /** What is noted in Via of a copy: the sender's address or, for an INVITE from a connection without a port, the
      server's; nothing for a BYE. */
  function NotedSender(config: Config, m: SipMessage): string {
    match m.command
    case Bye => ""
    case Invite => ";received=" + (if m.address.port == 0 then config.ip else m.address.ip)
    case _ => ";received=" + m.address.ip
  }

  /** The branch of a request; without one, a number made of the caller's tag or the counter. */
  function BranchText(m: SipMessage, tag: nat): string {
    var branch, own := ParameterOf(Get(m.headers, "V"), "branch"), ParameterOf(Get(m.headers, "F"), "tag");
    if branch != "" then "branch=" + branch else "branch=z9hG4bK" + if own != "" then own else Dec(tag)
  }

  /** The length of the body as the sender gave it. */
  function LengthText(m: SipMessage): string {
    if "L" in m.headers then m.headers["L"] else "0"
  }

  /** A copy for the callee `a`: everything is the request's own but hop count and To, the transport in Via, and, for
      requests other than BYE and MESSAGE, the request URI, which is the callee's.  A MESSAGE starts a new Via at the
      server and carries the length its sender gave. */
  ghost predicate CopyContents(config: Config, a: Address, m: SipMessage, branch: string, length: string,
                               svc: Endpoint, f: SipMessage) {
    && f.command == m.command && f.code == m.code && f.body == m.body
    && (forall n :: HeaderNamed(n) !in {Hops, To, Via, Length} ==> Get(f.headers, n) == Get(m.headers, n))
    && (if m.command.Bye? || m.command.Message? then f.commandParam == m.commandParam
        else f.commandParam == "sip:" + a.Key())
    && (if m.command.Message? then
          Get(f.headers, "L") == length &&
          Get(f.headers, "V") == "SIP/2.0/" + WireName(f.proto) + " " + svc.ip + ":" + Dec(svc.port) + ";" + branch
        else
          Get(f.headers, "L") == Get(m.headers, "L") &&
          WithTransport(Get(m.headers, "V"), f.proto, NotedSender(config, m), Get(f.headers, "V")))
  }

  lemma TransportedVia(p: Proto, via: string, behind: string)
    ensures WithTransport(via, p, behind, Transported(p, via) + behind)
  {
    hide IndexOf;
    WireNameIs(p);
    forall i | 0 < i < |via| && via[i] == ' ' && Free(via[..i], ' ')
      ensures Transported(p, via) == "SIP/2.0/" + WireName(p) + via[i..]
    {
      assert via[0..i] == via[..i];
      IndexOfIs(via, ' ', 0, i);
    }
  }

  lemma CalledContents(env: Env, config: Config, a: Address, m: SipMessage, received: string, branch: string,
                       length: string, svc: Endpoint)
    requires a.locations != [] && NeedsCallee(m.command) && !m.command.Bye? && !m.command.Message?
    requires ";received=" + received == NotedSender(config, m)
    ensures forall f :: f in Called(env, a, m, received) ==> CopyContents(config, a, m, branch, length, svc, f)
  {
    hide Transported, WithTransport, HeaderNamed, Called, NotedSender;
    forall f | f in Called(env, a, m, received) ensures CopyContents(config, a, m, branch, length, svc, f) {
      CalledCopy(env, a, m, received, f);
      TransportedVia(f.proto, Get(m.headers, "V"), NotedSender(config, m));
      ShortHeader("L");
    }
  }

  /** One copy of an ACK, CANCEL, INVITE or OPTIONS. */
  lemma CalledCopy(env: Env, a: Address, m: SipMessage, received: string, f: SipMessage)
    requires a.locations != [] && f in Called(env, a, m, received)
    ensures f.command == m.command && f.code == m.code && f.body == m.body && f.commandParam == "sip:" + a.Key()
    ensures Get(f.headers, "V") == Transported(f.proto, Get(m.headers, "V")) + (";received=" + received)
    ensures forall n :: HeaderNamed(n) != Via && HeaderNamed(n) != To ==> Get(f.headers, n) == Get(m.headers, n)
  {
    hide Transported, HeaderNamed, Get;
    Letters();
    var l, uri := a.locations[0], "sip:" + a.Key();
    assert uri == "sip:" + a.id + "@" + a.domain;
    var h := m.headers["T" := a.TaggedUri()];
    var via := Transported(l.proto, Get(h, "V"));
    HeaderSet(m.headers, "T", a.TaggedUri());
    HeaderSet(h, "V", via);
    HeaderSet(h["V" := via], "V", via + ";" + "received" + "=" + received);
    Appended(via, "received", received, ";received=");
    assert via + (";received=" + received) == via + ";received=" + received;
    assert f.headers == h["V" := via]["V" := via + ";" + "received" + "=" + received];
    forall n {
      ShortHeader(n);
    }
  }

  lemma ByeContents(env: Env, config: Config, a: Address, m: SipMessage, branch: string, length: string, svc: Endpoint)
    requires a.locations != [] && m.command.Bye? && Routed(env, a, m).Some?
    ensures CopyContents(config, a, m, branch, length, svc, Validated(Routed(env, a, m).value))
  {
    hide HeaderNamed, Transported, WithTransport;
    Letters();
    forall n {
      ShortHeader(n);
    }
    var f := Validated(Routed(env, a, m).value);
    TransportedVia(f.proto, Get(m.headers, "V"), "");
    assert Get(f.headers, "V") == Transported(f.proto, Get(m.headers, "V")) + "";
  }

  lemma MessageContents(env: Env, config: Config, a: Address, m: SipMessage, branch: string, length: string,
                        svc: Endpoint)
    requires a.locations != [] && m.command.Message? && Routed(env, a, m).Some?
    ensures CopyContents(config, a, m, branch, length, svc, Relabelled(Routed(env, a, m).value, svc, branch, length))
  {
    hide HeaderNamed, Dec, Upper, ProtoName, WireName;
    Letters();
    forall n {
      ShortHeader(n);
    }
    WireNameIs(Routed(env, a, m).value.proto);
  }

  lemma CalleeContents(env: Env, config: Config, accounts: Accounts, m: SipMessage, r: SipMessage, branch: string,
                       svc: Endpoint, now: Time, f: SipMessage)
    requires NeedsCallee(m.command) && ToKey(m) in accounts && accounts[ToKey(m)].locations != []
    requires r.command.Response? && f.command == m.command
    requires f in CalleeReplies(env, config, accounts, m, r, branch, svc, now)
    ensures CopyContents(config, accounts[ToKey(m)], m, branch, Get(r.headers, "L"), svc, f)
  {
    hide Called, Routed, Validated, Relabelled, CopyContents, KeyOf, Dec, FirstIsLive;
    var a, length := accounts[ToKey(m)], Get(r.headers, "L");
    match m.command
    case Ack | Cancel | Options => CalledContents(env, config, a, m, m.address.ip, branch, length, svc);
    case Invite =>
      CalledContents(env, config, a, m, if m.address.port == 0 then config.ip else m.address.ip, branch, length, svc);
    case Bye => ByeContents(env, config, a, m, branch, length, svc);
    case Message => MessageContents(env, config, a, m, branch, length, svc);
  }

  lemma ContentsThrough(config: Config, a: Address, m: SipMessage, n: SipMessage, branch: string, length: string,
                        svc: Endpoint, f: SipMessage)
    requires ReadsLike(m, n) && CopyContents(config, a, n, branch, length, svc, f)
    ensures CopyContents(config, a, m, branch, length, svc, f)
  {
    hide HeaderNamed, WithTransport, Dec, WireName;
    Letters();
    HopsHeader("V");
    HopsHeader("L");
    forall name {
      HopsHeader(name);
    }
  }

  /** The parts of the skeleton a copy takes: the branch, and the length its answer has. */
  lemma PreparedParts(m: SipMessage, tag: nat)
    requires !m.command.Invalid?
    ensures var start := Prepare(m, tag);
            start.branch == BranchText(m, start.tag) && Get(start.r.headers, "L") == LengthText(m)
  {
    hide HeaderNamed, ParameterOf, HasParameter, ReplaceParameter, Dec;
    Letters();
    AgentHeader("L");
    AllowHeader("L");
  }

  // ---------------------------------------------------------------- the copy a request leaves as

  lemma CalleeStepContents(env: Env, config: Config, accounts: Accounts, m: SipMessage, n: SipMessage, r: SipMessage,
                           branch: string, tag: nat, svc: Endpoint, nonce: string, now: Time, f: SipMessage)
    requires ReadsLike(m, n) && Answers(n, r) && !m.command.Response? && f.command == m.command
    requires ToKey(n) in accounts ==> accounts[ToKey(n)].locations != []
    requires f in CalleeStep(env, config, accounts, n, r, branch, tag, svc, nonce, now).replies
    ensures ToKey(m) in accounts && CopyContents(config, accounts[ToKey(m)], m, branch, Get(r.headers, "L"), svc, f)
    ensures var s := CalleeStep(env, config, accounts, n, r, branch, tag, svc, nonce, now);
            s.accounts == accounts && s.tag == tag
  {
    hide ReadsLike, CalleeReplies, CopyContents, KeyOf, Dec, Presented, Permitted, UpdatedAccounts, UpdatedReply,
      Challenged;
    SameReading(m, n, config.domain);
    CommandReads(m, n);
    if NeedsCallee(n.command) {
      if ToKey(n) !in accounts {
        NoCallee(env, config, accounts, n, r, branch, svc, now);
        assert false;
      }
      CalleeContents(env, config, accounts, n, r, branch, svc, now, f);
      ContentsThrough(config, accounts[ToKey(m)], m, n, branch, Get(r.headers, "L"), svc, f);
    } else {
      OtherReplies(env, config, accounts, n, r, branch, tag, svc, nonce, now);
      assert false;
    }
  }

  lemma CallerKeepsLength(env: Env, config: Config, accounts: Accounts, m: SipMessage, r: SipMessage,
                          svc: Endpoint, nonce: string, now: Time)
    ensures var c := CallerStep(env, config, accounts, m, r, svc, nonce, now);
            c.Admitted? ==> Get(c.r.headers, "L") == Get(r.headers, "L")
  {
    hide HeaderNamed, PurgedAt, LocatedAt, LiveAt, Presented, Permitted, UpdatedAccounts, KeyOf, GetValue, Dec,
      ParseInt, ChallengeParams;
    Letters();
    CredentialsHeader("L");
    ExpiryHeader("L");
  }

  lemma AnswersAlike(m: SipMessage, a: SipMessage, b: SipMessage, r: SipMessage)
    requires ReadsLike(m, a) && ReadsLike(m, b) && Answers(a, r)
    ensures Answers(b, r)
  {
  }

  lemma SameParts(m: SipMessage, m1: SipMessage, tag: nat)
    requires m1 == m.WithMaxForwards(ToInt32(m.MaxForwards() - 1))
    ensures BranchText(m1, tag) == BranchText(m, tag) && LengthText(m1) == LengthText(m)
  {
    hide HeaderNamed, Dec, ParseInt, ParameterOf;
    Letters();
    HopsHeader("V");
    HopsHeader("F");
    HopsHeader("L");
  }

  /** What a request is sent on as, for every request and every registry. */
  lemma ForwardedContents(env: Env, config: Config, accounts: Accounts, m: SipMessage, tag: nat, svc: Endpoint,
                          nonce: string, now: Time, f: SipMessage)
    requires !m.command.Response? && !m.command.Invalid?
    requires f in MessageStep(env, config, accounts, m, tag, svc, nonce, now).replies && f.command == m.command
    ensures var s := MessageStep(env, config, accounts, m, tag, svc, nonce, now);
            ToKey(m) in s.accounts &&
            CopyContents(config, s.accounts[ToKey(m)], m, BranchText(m, s.tag), LengthText(m), svc, f)
  {
    hide Prepare, CallerStep, CalleeStep, CalleeNoted, LocatedAt, KeyOf, Answers, ReadsLike, Dec, ParseInt,
      CopyContents, BranchText, LengthText;
    var m1 := m.WithMaxForwards(ToInt32(m.MaxForwards() - 1));
    var start := Prepare(m1, tag);
    PreparedParts(m1, tag);
    SameParts(m, m1, start.tag);
    PreparedForwards(m1, tag);
    PreparedReadsLike(m, tag);
    CallerOutcome(env, config, accounts, start.m, start.r, svc, nonce, now);
    CallerEffect(env, config, accounts, m, start.m, start.r, svc, nonce, now);
    CallerKeepsLength(env, config, accounts, start.m, start.r, svc, nonce, now);
    match CallerStep(env, config, accounts, start.m, start.r, svc, nonce, now)
    case CallerThrew(_, _) =>
    case Refused(_, _, r) =>
      assert f == r;
      AnswersRespond(start.m, r);
      assert false;
    case Admitted(accounts1, m2, r2) =>
      NotedReadsLike(accounts1, m, m2);
      AnswersAlike(m, start.m, CalleeNoted(accounts1, m2), r2);
      CalleeStepContents(env, config, CalleeAccounts(accounts1, m2, now), m, CalleeNoted(accounts1, m2), r2,
        start.branch,
                         start.tag, svc, nonce, now, f);
  }

  /** A request URI that names the callee resolves to it, at a server with right keys whose own update moves no entry to
      another domain. */
  lemma RequestUriResolves(env: Env, config: Config, accounts: Accounts, m: SipMessage, tag: nat, svc: Endpoint,
                           nonce: string, now: Time, f: SipMessage)
    requires !m.command.Response? && !m.command.Invalid? && !m.command.Bye? && !m.command.Message?
    requires f in MessageStep(env, config, accounts, m, tag, svc, nonce, now).replies && f.command == m.command
    requires Keyed(accounts) && !MovesDomain(env, config, accounts, m, now)
    ensures f.commandParam == "sip:" + ToKey(m) && KeyOf(f.commandParam) == ToKey(m)
  {
    hide MessageStep, KeyOf, Keyed, MovesDomain, WithTransport, Id, AddressText.Domain;
    var after := MessageStep(env, config, accounts, m, tag, svc, nonce, now).accounts;
    ForwardedContents(env, config, accounts, m, tag, svc, nonce, now, f);
    KeysStayRight(env, config, accounts, m, tag, svc, nonce, now);
    OwnKey(after, ToKey(m));
    ResolutionIsStable(Get(m.headers, "T"), after[ToKey(m)]);
    assert "sip:" + after[ToKey(m)].Key() == after[ToKey(m)].Uri();
  }

  // ---------------------------------------------------------------- answers

  /** What kind of answer a status makes. */
  datatype Kind = Plain | Challenges | Empty | Capable

  function KindOf(c: Command, code: int): Kind {
    if code == 401 then Challenges
    else if code == 404 || (c.Message? && code == 200) then Empty
    else if c.Options? && code == 200 then Capable
    else Plain
  }

  /** The sender's address, noted a number of times. */
  function Noted(ip: string, times: nat): string {
    if times == 0 then "" else Noted(ip, times - 1) + ";received=" + ip
  }

  /** To with a tag: its own, or the caller's, or the next number. */
  function TaggedTo(m: SipMessage, tag: nat): string {
    var to, own := Get(m.headers, "T"), ParameterOf(Get(m.headers, "F"), "tag");
    if HasParameter(to, "tag") then to else to + ";tag=" + if own != "" then own else Dec(NextTag(tag))
  }

  /** What a header of an answer to `m` says: From, Call-ID, CSeq and every other one the server does not write itself
      as in the request.  `updated` says whether the request's update was made. */
  function AnswerText(m: SipMessage, tag: nat, updated: bool, kind: Kind, challenge: string, n: string): string {
    match HeaderNamed(n)
    case To => TaggedTo(m, tag)
    case Via =>
      ReplaceParameter(Get(m.headers, "V"), "rport", "rport=" + Dec(m.address.port))
      + Noted(m.address.ip, (if updated then 1 else 0) + (if kind.Capable? then 1 else 0))
    case Length => if kind.Empty? then "0" else LengthText(m)
    case Agent => "sipws"
    case Allow => ALLOWED_METHODS
    case Hops => if kind.Capable? then "" else Dec(ToInt32(m.MaxForwards() - 1))
    case Expiry => if updated then Dec(m.Expires()) else Get(m.headers, n)
    case Credentials => if updated then "" else Get(m.headers, n)
    case Challenging => if kind.Challenges? then challenge else Get(m.headers, n)
    case Accept => if kind.Capable? then "application/sdp" else Get(m.headers, n)
    case AcceptLanguage => if kind.Capable? then "en" else Get(m.headers, n)
    case AcceptEncoding | Supported | AllowEvents => if kind.Capable? then "" else Get(m.headers, n)
    case Copied => Get(m.headers, n)
  }

  /** What the answer says in header `n`, and whether it has the header, where it may be taken out. */
  predicate AnswerContents(m: SipMessage, tag: nat, updated: bool, kind: Kind, challenge: string, r: SipMessage,
                           n: string) {
    && r.command.Response? && r.body == ""
    && Get(r.headers, n) == AnswerText(m, tag, updated, kind, challenge, n)
    && (HeaderNamed(n) == Credentials ==> (n in r.headers <==> n in m.headers && !updated))
    && (HeaderNamed(n) == Hops ==> (n in r.headers <==> !kind.Capable?))
  }

  lemma ReplyHeader(m: SipMessage, n: string)
    requires !m.command.Invalid?
    ensures var r := ReplyTo(m).Touched("T");
            r.command.Response? && r.body == "" &&
            (HeaderNamed(n) == Credentials || HeaderNamed(n) == Hops ==> (n in r.headers <==> n in m.headers)) &&
            Get(r.headers, n) == match HeaderNamed(n)
                                 case Length => LengthText(m)
                                 case Agent => "sipws"
                                 case Allow => ALLOWED_METHODS
                                 case _ => Get(m.headers, n)
  {
    hide HeaderNamed;
    var h := if "L" in m.headers then m.headers else m.headers["L" := "0"];
    HeaderSetAt(m.headers, "L", "0", n);
    HeaderSetAt(h, "User-Agent", "sipws", n);
    HeaderSetAt(h["User-Agent" := "sipws"], "Allow", ALLOWED_METHODS, n);
    ShortHeader(n);
    AgentHeader(n);
    AllowHeader(n);
  }

  lemma HeaderSet(h: Headers, name: string, value: string)
    ensures forall n :: Get(h[name := value], n) == if n == name then value else Get(h, n)
  {
    hide Get;
    forall n {
      HeaderSetAt(h, name, value, n);
    }
  }

  /** The skeleton, before anything is known about the caller. */
  lemma SkeletonHeader(m: SipMessage, tag: nat, n: string)
    requires !m.command.Invalid?
    ensures var r := Prepare(m, tag).r;
            r.command.Response? && r.body == "" &&
            (HeaderNamed(n) == Credentials || HeaderNamed(n) == Hops ==> (n in r.headers <==> n in m.headers)) &&
            Get(r.headers, n) ==
              match HeaderNamed(n)
              case Via => ReplaceParameter(Get(m.headers, "V"), "rport", "rport=" + Dec(m.address.port))
              case To => TaggedTo(m, tag)
              case Length => LengthText(m)
              case Agent => "sipws"
              case Allow => ALLOWED_METHODS
              case _ => Get(m.headers, n)
  {
    hide ReplyTo, ParameterOf, HasParameter, ReplaceParameter, Dec, NextTag, LengthText, HeaderNamed;
    Letters();
    ShortHeader(n);
    ReplyHeader(m, n);
    ReplyHeader(m, "T");
    ReplyHeader(m, "V");
    Appended(Get(m.headers, "T"), "tag", TagText(m, tag), ";tag=");
  }

  lemma Appended(text: string, parameter: string, value: string, mark: string)
    requires mark == ";" + parameter + "="
    ensures text + ";" + parameter + "=" + value == text + mark + value
  {
  }

  lemma SkeletonContents(m: SipMessage, tag: nat, challenge: string, n: string)
    requires !m.command.Invalid?
    ensures AnswerContents(m, tag, false, Plain, challenge,
                           Prepare(m.WithMaxForwards(ToInt32(m.MaxForwards() - 1)), tag).r, n)
  {
    hide Prepare, ParameterOf, HasParameter, ReplaceParameter, Dec, ParseInt, NextTag, TaggedTo, LengthText,
      HeaderNamed;
    var m1 := m.WithMaxForwards(ToInt32(m.MaxForwards() - 1));
    Letters();
    HopsHeader(n);
    HopsHeader("V");
    SkeletonHeader(m1, tag, n);
    SameTo(m, m1, tag);
    SameParts(m, m1, tag);
    assert Noted(m.address.ip, 0) == "";
  }

  lemma SameTo(m: SipMessage, m1: SipMessage, tag: nat)
    requires m1 == m.WithMaxForwards(ToInt32(m.MaxForwards() - 1))
    ensures TaggedTo(m1, tag) == TaggedTo(m, tag)
  {
    hide Dec, ParseInt, HasParameter, ParameterOf, NextTag, HeaderNamed;
    Letters();
    HopsHeader("T");
    HopsHeader("F");
  }

  lemma UpdatedContents(accounts: Accounts, m: SipMessage, n: SipMessage, tag: nat, challenge: string, r: SipMessage,
                        name: string)
    requires ReadsLike(m, n) && AnswerContents(m, tag, false, Plain, challenge, r, name)
    ensures AnswerContents(m, tag, ToKey(m) in accounts, Plain, challenge, UpdatedReply(accounts, n, r), name)
  {
    hide KeyOf, Dec, ParseInt, TaggedTo, ReplaceParameter, LengthText, HeaderNamed, Noted, UpdatedReply, ReadsLike;
    SameReading(m, n, "");
    SenderReads(m, n);
    if ToKey(m) in accounts {
      UpdatedHeader(accounts, n, r, name);
      ViaHeader(name);
      NotedOnceMore(ReplaceParameter(Get(m.headers, "V"), "rport", "rport=" + Dec(m.address.port)), m.address.ip, 0);
    } else {
      NotUpdated(accounts, n, r);
    }
  }

  lemma NotUpdated(accounts: Accounts, n: SipMessage, r: SipMessage)
    requires ToKey(n) !in accounts
    ensures UpdatedReply(accounts, n, r) == r
  {
  }

  lemma UpdatedHeader(accounts: Accounts, n: SipMessage, r: SipMessage, name: string)
    requires ToKey(n) in accounts
    ensures var u := UpdatedReply(accounts, n, r);
            u.command == r.command && u.body == r.body &&
            (HeaderNamed(name) == Credentials ==> name !in u.headers) &&
            (HeaderNamed(name) == Hops ==> (name in u.headers <==> name in r.headers)) &&
            Get(u.headers, name) == match HeaderNamed(name)
                                    case Credentials => ""
                                    case Expiry => Dec(n.Expires())
                                    case Via => Get(r.headers, "V") + ";received=" + n.address.ip
                                    case _ => Get(r.headers, name)
  {
    hide KeyOf, Dec, ParseInt, HeaderNamed, Get;
    var h := r.headers - {"Authorization"};
    var h1 := h["Expires" := Dec(n.Expires())];
    HeaderDroppedAt(r.headers, "Authorization", name);
    HeaderDroppedAt(r.headers, "Authorization", "V");
    HeaderSetAt(h, "Expires", Dec(n.Expires()), name);
    HeaderSetAt(h, "Expires", Dec(n.Expires()), "V");
    HeaderSetAt(h1, "V", Get(h1, "V") + ";" + "received" + "=" + n.address.ip, name);
    Appended(Get(h1, "V"), "received", n.address.ip, ";received=");
    CredentialsHeader(name);
    ExpiryHeader(name);
    ViaHeader(name);
    CredentialsHeader("V");
    ExpiryHeader("V");
    Letters();
  }

  lemma HeaderDroppedAt(h: Headers, name: string, n: string)
    ensures Get(h - {name}, n) == (if n == name then "" else Get(h, n)) && (n in h - {name} <==> n != name && n in h)
  {
  }

  /** The challenge for the sender of a request. */
  function ChallengeText(env: Env, config: Config, m: SipMessage, svc: Endpoint, nonce: string): string {
    GetValue(AuthParams(nonce, H(env.md5, config.authDomain + nonce), false, false, "", config.domain,
                        "sip:" + svc.ip, Id(Get(m.headers, "F")), "", "", 0), true)
  }

  lemma ChallengedContents(env: Env, config: Config, m: SipMessage, n: SipMessage, tag: nat, svc: Endpoint,
                           nonce: string, r: SipMessage, name: string)
    requires ReadsLike(m, n)
    requires AnswerContents(m, tag, false, Plain, ChallengeText(env, config, m, svc, nonce), r, name)
    ensures AnswerContents(m, tag, false, Challenges, ChallengeText(env, config, m, svc, nonce),
                           Challenged(env, config, n, r, svc, nonce).(body := ""), name)
  {
    hide Dec, ParseInt, TaggedTo, ReplaceParameter, LengthText, GetValue, H, Id, Noted, HeaderNamed, ReadsLike;
    FromReads(m, n);
    ChallengeHeader(name);
  }

  lemma EmptyContents(m: SipMessage, tag: nat, updated: bool, challenge: string, r: SipMessage, name: string)
    requires AnswerContents(m, tag, updated, Plain, challenge, r, name)
    ensures AnswerContents(m, tag, updated, Empty, challenge, r.(code := 200).WithHeader("L", "0"), name)
            && AnswerContents(m, tag, updated, Empty, challenge, NotFound(r), name)
  {
    hide Dec, ParseInt, TaggedTo, ReplaceParameter, LengthText, Noted, HeaderNamed;
    ShortHeader(name);
  }

  lemma CapableContents(m: SipMessage, tag: nat, updated: bool, challenge: string, r: SipMessage, name: string)
    requires AnswerContents(m, tag, updated, Plain, challenge, r, name)
    ensures AnswerContents(m, tag, updated, Capable, challenge, Capabilities(r, m.address.ip), name)
  {
    hide Capabilities, Dec, ParseInt, TaggedTo, ReplaceParameter, LengthText, Noted, HeaderNamed;
    ViaHeader(name);
    CapableHeader(r, m.address.ip, name);
    NotedOnceMore(ReplaceParameter(Get(m.headers, "V"), "rport", "rport=" + Dec(m.address.port)), m.address.ip,
      if updated then 1 else 0);
  }

  lemma NotedOnceMore(via: string, ip: string, times: nat)
    ensures via + Noted(ip, times + 1) == via + Noted(ip, times) + ";received=" + ip
  {
    assert Noted(ip, times + 1) == Noted(ip, times) + ";received=" + ip;
    assert via + Noted(ip, times) + ";received=" + ip == via + (Noted(ip, times) + ";received=" + ip);
  }

  lemma CapableHeader(r: SipMessage, ip: string, n: string)
    ensures var c := Capabilities(r, ip);
            c.body == "" && c.command == r.command && (HeaderNamed(n) == Hops ==> n !in c.headers) &&
            (HeaderNamed(n) == Credentials ==> (n in c.headers <==> n in r.headers)) &&
            Get(c.headers, n) ==
              match HeaderNamed(n)
              case Hops => ""
              case Via => Get(r.headers, "V") + ";received=" + ip
              case Allow => ALLOWED_METHODS
              case Accept => "application/sdp"
              case AcceptLanguage => "en"
              case AcceptEncoding | Supported | AllowEvents => ""
              case _ => Get(r.headers, n)
  {
    hide HeaderNamed, Get;
    var base := r.(body := "", headers := r.headers - {"Max-Forwards"}).AddParameter("V", "received", ip);
    var h := base.headers["Allow" := ALLOWED_METHODS];
    var h1 := h["Accept" := "application/sdp"];
    var h2 := h1["Accept-Encoding" := ""];
    var h3 := h2["Accept-Language" := "en"];
    var h4 := h3["K" := ""];
    CapableBase(r, ip, n);
    HeaderSetAt(base.headers, "Allow", ALLOWED_METHODS, n);
    HeaderSetAt(h, "Accept", "application/sdp", n);
    HeaderSetAt(h1, "Accept-Encoding", "", n);
    HeaderSetAt(h2, "Accept-Language", "en", n);
    HeaderSetAt(h3, "K", "", n);
    HeaderSetAt(h4, "Allow-Events", "", n);
    AllowHeader(n);
    AcceptHeader(n);
    AcceptedHeader(n);
    ShortHeader(n);
    EventsHeader(n);
  }

  lemma HeaderSetAt(h: Headers, name: string, value: string, n: string)
    ensures Get(h[name := value], n) == (if n == name then value else Get(h, n))
            && (n in h[name := value] <==> n == name || n in h)
  {
  }

  lemma CapableBase(r: SipMessage, ip: string, n: string)
    ensures var b := r.(body := "", headers := r.headers - {"Max-Forwards"}).AddParameter("V", "received", ip);
            (HeaderNamed(n) == Hops ==> n !in b.headers) &&
            (HeaderNamed(n) == Credentials ==> (n in b.headers <==> n in r.headers)) &&
            Get(b.headers, n) == match HeaderNamed(n)
                                 case Hops => ""
                                 case Via => Get(r.headers, "V") + ";received=" + ip
                                 case _ => Get(r.headers, n)
  {
    hide HeaderNamed;
    Letters();
    HopsHeader(n);
    HopsHeader("V");
    ViaHeader(n);
    Appended(Get(r.headers, "V"), "received", ip, ";received=");
  }

  // ---------------------------------------------------------------- the answer a request gets

  /** The request's own update is made, and on an account. */
  predicate UpdateMade(env: Env, config: Config, accounts: Accounts, m: SipMessage, now: int) {
    UpdateGranted(env, config, accounts, m, now) && ToKey(m) in accounts
  }

  lemma CallerContents(env: Env, config: Config, accounts: Accounts, m: SipMessage, n: SipMessage, tag: nat,
                       r: SipMessage, svc: Endpoint, nonce: string, now: Time, name: string)
    requires ReadsLike(m, n) && !m.command.Response? && m.MaxForwards() != 0 && r.code == 200
    requires AnswerContents(m, tag, false, Plain, ChallengeText(env, config, m, svc, nonce), r, name)
    ensures var c, challenge := CallerStep(env, config, accounts, n, r, svc, nonce, now),
              ChallengeText(env, config, m, svc, nonce);
            match c
            case CallerThrew(_, _) => true
            case Refused(_, _, r') =>
              r'.code == 401 && !UpdateMade(env, config, accounts, m, now)
              && AnswerContents(m, tag, false, Challenges, challenge, r', name)
            case Admitted(_, _, r') =>
              r'.code == 200 &&
              AnswerContents(m, tag, !m.command.Register? && UpdateMade(env, config, accounts, m, now), Plain,
                             challenge, r', name)
  {
    hide AnswerContents, ReadsLike, UpdatedAccounts, LocatedAt, PurgedAt, LiveAt, Presented, Permitted, UpdatedReply,
      Challenged, UpdateTouches, KeyOf, ChallengeText, ParseInt, SameView;
    var from, challenge := FromKey(n), ChallengeText(env, config, m, svc, nonce);
    SameReading(m, n, config.domain);
    CommandReads(m, n);
    if from !in accounts {
      NotGranted(env, config, accounts, m);
    } else if !m.command.Register? && !LiveAt(accounts, from, now) {
      var purged, n1 := PurgedAt(accounts, from, now), n.(keyFrom := accounts[from].Key());
      LookupKeepsView(accounts, from, now);
      SameViewKeys(purged, accounts, now);
      SameViewSymmetric(purged, accounts, now);
      NotedReadsLike(accounts, m, n);
      SameGrant(env, config, accounts, purged, m, n1, now);
      SameReading(m, n1, config.domain);
      UpdatedContents(purged, m, n1, tag, challenge, r, name);
      ChallengedContents(env, config, m, n1, tag, svc, nonce, r, name);
      ReplyCodes(env, config, purged, n1, r, svc, nonce);
    }
  }

  lemma SameViewKeys(a: Accounts, b: Accounts, now: int)
    requires SameView(a, b, now)
    ensures a.Keys == b.Keys
  {
  }

  lemma ReplyCodes(env: Env, config: Config, accounts: Accounts, m: SipMessage, r: SipMessage, svc: Endpoint,
                   nonce: string)
    ensures UpdatedReply(accounts, m, r).code == r.code && Challenged(env, config, m, r, svc, nonce).code == 401
            && Challenged(env, config, m, r, svc, nonce).(body := "").code == 401
  {
  }

  lemma CalleeAnswers(env: Env, config: Config, accounts: Accounts, m: SipMessage, n: SipMessage, tag: nat,
                      updated: bool, challenge: string, r: SipMessage, branch: string, svc: Endpoint, now: Time,
                      f: SipMessage, name: string)
    requires ReadsLike(m, n) && NeedsCallee(n.command) && r.code == 200
    requires ToKey(n) in accounts ==> accounts[ToKey(n)].locations != []
    requires AnswerContents(m, tag, updated, Plain, challenge, r, name)
    requires f in CalleeReplies(env, config, accounts, n, r, branch, svc, now) && f.command.Response?
    ensures AnswerContents(m, tag, updated, KindOf(m.command, f.code), challenge, f, name)
  {
    hide AnswerContents, ReadsLike, Called, Routed, Validated, Relabelled, Capabilities, NotFound, KeyOf, FirstIsLive,
      Dec;
    CommandReads(m, n);
    SenderReads(m, n);
    EmptyContents(m, tag, updated, challenge, r, name);
    CapableContents(m, tag, updated, challenge, r, name);
    AnswerCodes(r, m.address.ip);
    if ToKey(n) in accounts {
      var a := accounts[ToKey(n)];
      CalledIsRequest(env, a, n, n.address.ip);
      CalledIsRequest(env, a, n, config.ip);
      if Routed(env, a, n).Some? {
        RoutedIsRequest(env, a, n, svc, branch, Get(r.headers, "L"));
      }
    }
  }

  lemma SenderReads(m: SipMessage, n: SipMessage)
    requires ReadsLike(m, n)
    ensures m.address == n.address
  {
  }

  lemma AnswerCodes(r: SipMessage, ip: string)
    ensures NotFound(r).code == 404 && Capabilities(r, ip).code == r.code
  {
  }

  lemma CodeChanged(m: SipMessage, tag: nat, updated: bool, kind: Kind, challenge: string, r: SipMessage, name: string)
    requires AnswerContents(m, tag, updated, kind, challenge, r, name)
    ensures AnswerContents(m, tag, updated, kind, challenge, r.(body := ""), name)
    ensures forall code :: AnswerContents(m, tag, updated, kind, challenge, r.(code := code, body := ""), name)
  {
    hide AnswerText, HeaderNamed;
  }

  lemma CalleeStepAnswers(env: Env, config: Config, accounts: Accounts, accounts1: Accounts, m: SipMessage,
                          n: SipMessage, tag: nat, r: SipMessage, branch: string, tag1: nat, svc: Endpoint,
                          nonce: string, now: Time, f: SipMessage, name: string)
    requires ReadsLike(m, n) && !m.command.Response? && m.MaxForwards() != 0 && r.code == 200
    requires ToKey(n) in accounts1 ==> accounts1[ToKey(n)].locations != []
    requires m.command.Register? ==> SameView(accounts1, accounts, now)
    requires var updated := !m.command.Register? && UpdateMade(env, config, accounts, m, now);
             AnswerContents(m, tag, updated, Plain, ChallengeText(env, config, m, svc, nonce), r, name)
    requires f.command.Response?
    requires f in CalleeStep(env, config, accounts1, n, r, branch, tag1, svc, nonce, now).replies
    ensures AnswerContents(m, tag, UpdateMade(env, config, accounts, m, now), KindOf(m.command, f.code),
                           ChallengeText(env, config, m, svc, nonce), f, name)
  {
    hide AnswerContents, ReadsLike, CalleeReplies, UpdatedAccounts, Presented, Permitted, UpdatedReply, Challenged,
      UpdateTouches, KeyOf, ChallengeText, ParseInt, SameView, LiveAt;
    var challenge := ChallengeText(env, config, m, svc, nonce);
    CommandReads(m, n);
    SameReading(m, n, config.domain);
    CodeChanged(m, tag, !m.command.Register? && UpdateMade(env, config, accounts, m, now), Plain, challenge, r, name);
    if NeedsCallee(n.command) {
      CalleeAnswers(env, config, accounts1, m, n, tag, UpdateMade(env, config, accounts, m, now), challenge, r, branch,
        svc, now, f, name);
    } else if n.command.Register? {
      SameViewKeys(accounts1, accounts, now);
      SameViewSymmetric(accounts1, accounts, now);
      SameGrant(env, config, accounts, accounts1, m, n, now);
      UpdatedContents(accounts1, m, n, tag, challenge, r, name);
      ChallengedContents(env, config, m, n, tag, svc, nonce, r, name);
      ReplyCodes(env, config, accounts1, n, r, svc, nonce);
      CodeChanged(m, tag, ToKey(m) in accounts1, Plain, challenge, UpdatedReply(accounts1, n, r), name);
    }
  }

  /** Every answer to every request, header by header. */
  lemma AnswersSay(env: Env, config: Config, accounts: Accounts, m: SipMessage, tag: nat, svc: Endpoint,
                   nonce: string, now: Time, r: SipMessage, name: string)
    requires !m.command.Response? && !m.command.Invalid?
    requires r in MessageStep(env, config, accounts, m, tag, svc, nonce, now).replies && r.command.Response?
    ensures AnswerContents(m, tag, UpdateMade(env, config, accounts, m, now), KindOf(m.command, r.code),
                           ChallengeText(env, config, m, svc, nonce), r, name)
  {
    hide AnswerContents, Prepare, CallerStep, CalleeStep, CalleeNoted, LocatedAt, KeyOf, ReadsLike, Dec, ParseInt,
      UpdateMade, ChallengeText, SameView, LiveAt, Granted;
    var m1 := m.WithMaxForwards(ToInt32(m.MaxForwards() - 1));
    var start := Prepare(m1, tag);
    SkeletonContents(m, tag, ChallengeText(env, config, m, svc, nonce), name);
    PreparedAnswersOk(m1, tag);
    PreparedReadsLike(m, tag);
    CallerEffect(env, config, accounts, m, start.m, start.r, svc, nonce, now);
    CallerContents(env, config, accounts, m, start.m, tag, start.r, svc, nonce, now, name);
    match CallerStep(env, config, accounts, start.m, start.r, svc, nonce, now)
    case CallerThrew(_, _) =>
    case Refused(_, _, r') =>
    case Admitted(accounts1, m2, r2) =>
      NotedReadsLike(accounts1, m, m2);
      LookupKeepsView(accounts1, ToKey(m2), now);
      if m.command.Register? {
        SameViewTransitive(CalleeAccounts(accounts1, m2, now), accounts1, accounts, now);
      }
      CalleeStepAnswers(env, config, accounts, CalleeAccounts(accounts1, m2, now), m, CalleeNoted(accounts1, m2), tag,
        r2,
        start.branch, start.tag, svc, nonce, now, r, name);
  }

  /** The To header of an answer has a tag (section 8.2.6.2 of RFC 3261). */
  lemma AnswersAreTagged(m: SipMessage, tag: nat)
    ensures HasParameter(TaggedTo(m, tag), "tag")
  {
    hide HasParameter, ParameterOf, Dec;
    var to, own := Get(m.headers, "T"), ParameterOf(Get(m.headers, "F"), "tag");
    var t := if own != "" then own else Dec(NextTag(tag));
    AddedIsThere(to, "tag", t);
    Appended(to, "tag", t, ";tag=");
  }

  // ---------------------------------------------------------------- tags

  /** The counter after so many further tags. */
  function TagsLater(tag: nat, k: nat): nat {
    if k == 0 then tag else NextTag(TagsLater(tag, k - 1))
  }

  /** The numbers run from 1 to 999999 and start over. */
  lemma {:induction false} TagCycle(tag: nat, k: nat)
    requires tag <= 999999 && 0 < k
    ensures TagsLater(tag, k) == (tag + k - 1) % 999999 + 1
    decreases k
  {
    if k > 1 {
      TagCycle(tag, k - 1);
    }
  }

  /** So no number comes back among 999999 in a row. */
  lemma TagsDiffer(tag: nat, i: nat, j: nat)
    requires tag <= 999999 && 0 < i < j < i + 999999
    ensures TagsLater(tag, i) != TagsLater(tag, j)
  {
    TagCycle(tag, i);
    TagCycle(tag, j);
  }
}
