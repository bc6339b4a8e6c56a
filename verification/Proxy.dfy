/** One message through the registrar and proxy, as a function of the registry contents
    (SipDialog.cpp). */
module Proxy {
  import opened Wrappers
  import opened Text
  import opened Locations
  import opened AddressText
  import opened AccountMap
  import opened Messages
  import opened Digest
  import opened DigestPrinter
  import opened DigestResponse

  /** What the server cannot compute itself: name resolution and MD5. */
  datatype Env = Env(resolve: string -> Option<string>, md5: Md5)

  /** The registry's domain and default address, and the domain the dialog was created with. */
  datatype Config = Config(domain: string, ip: string, authDomain: string)

  /** The effect of one message: the registry contents, the tag counter, the message with the headers it
      was read through, the messages appended, and whether the call left by an exception. */
  datatype Step = Step(accounts: Accounts, tag: nat, m: SipMessage, replies: seq<SipMessage>, threw: bool)

  function FromKey(m: SipMessage): string {
    KeyOf(Get(m.headers, "F"))
  }

  function ToKey(m: SipMessage): string {
    KeyOf(Get(m.headers, "T"))
  }

  // ---------------------------------------------------------------- authorization

  /** The AuthParams constructor. */
  function Presented(domain: string, headers: Headers): Outcome<AuthParams> {
    if "Authorization" !in headers then Returned(BLANK)
    else
      var p :- ParseHeader(BLANK, headers["Authorization"]);
      Returned(if p.domain == "" then p.(domain := domain) else p)
  }

  predicate IsByUser(accounts: Accounts, id: string, domain: string, m: SipMessage) {
    FromKey(m) in accounts && accounts[FromKey(m)].id == id && accounts[FromKey(m)].domain == domain
  }

  function PresentedKey(p: AuthParams): string {
    p.username + "@" + p.domain
  }

  predicate Authenticates(env: Env, accounts: Accounts, request: string, p: AuthParams) {
    && p.username != ""
    && PresentedKey(p) in accounts
    && IsAuthorized(env.md5, p, request, accounts[PresentedKey(p)].password, "")
  }

  predicate Permitted(env: Env, config: Config, accounts: Accounts, m: SipMessage, p: AuthParams) {
    IsByUser(accounts, p.username, config.domain, m) && Authenticates(env, accounts, CommandName(m.command), p)
  }

  /** addWWWAuthenticate; `nonce` is what newNonce returned. */
  function ChallengeParams(env: Env, config: Config, m: SipMessage, svc: Endpoint, nonce: string): AuthParams {
    BLANK.(username := Id(Get(m.headers, "F")), uri := "sip:" + svc.ip, realm := config.domain, nonce := nonce,
           opaqueData := H(env.md5, config.authDomain + nonce))
  }

  function Challenged(env: Env, config: Config, m: SipMessage, r: SipMessage, svc: Endpoint,
                      nonce: string): SipMessage {
    r.(code := 401).WithHeader("WWW-Authenticate", GetValue(ChallengeParams(env, config, m, svc, nonce), true))
  }

  // ---------------------------------------------------------------- registration

  function UpdatedEntry(domain: string, a: Address, m: SipMessage, expire: Int32, now: Time): Address {
    if expire <= 0 then a.(locations := Unbound(a.locations, expire, now))
    else a.(locations := Rebound(a.locations, m.proto, m.address.ip, m.address.port, expire, now), domain := domain)
  }

  function UpdatedAccounts(config: Config, accounts: Accounts, m: SipMessage, now: Time): Accounts {
    var key := ToKey(m);
    if key !in accounts then accounts
    else accounts[key := UpdatedEntry(config.domain, accounts[key], m, m.Expires(), now)]
  }

  /** The headers of the answer to an update; nothing is written when To is unknown. */
  function UpdatedReply(accounts: Accounts, m: SipMessage, r: SipMessage): SipMessage {
    if ToKey(m) !in accounts then r
    else
      r.(headers := r.headers - {"Authorization"})
       .WithHeader("Expires", Dec(m.Expires()))
       .AddParameter("V", "received", m.address.ip)
  }

  function UpdateTouches(accounts: Accounts, m: SipMessage): SipMessage {
    if ToKey(m) !in accounts then m.Touched("T") else m.Touched("T").Touched("Expires")
  }

  // ---------------------------------------------------------------- the answer skeleton

  /** The response constructor of SipMessage. */
  function ReplyTo(m: SipMessage): SipMessage {
    var r := SipMessage(map[], "", Command.Response, 200, "", m.proto, m.address, "", "", {}, None);
    if m.command.Invalid? then r
    else
      r.(headers := (if "L" in m.headers then m.headers else m.headers["L" := "0"])
           ["User-Agent" := "sipws"]["Allow" := ALLOWED_METHODS],
         key := m.key, keyFrom := m.keyFrom)
  }

  function NextTag(tag: nat): nat {
    if tag + 1 > 999999 then 1 else tag + 1
  }

  /** getTag: the caller's tag, or the next number. */
  function TagText(m: SipMessage, tag: nat): string {
    var t := ParameterOf(Get(m.headers, "F"), "tag");
    if t == "" then Dec(NextTag(tag)) else t
  }

  function TagAfter(m: SipMessage, tag: nat): nat {
    if ParameterOf(Get(m.headers, "F"), "tag") == "" then NextTag(tag) else tag
  }

  datatype Prelude = Prelude(m: SipMessage, r: SipMessage, branch: string, tag: nat)

  /** What is built before the registry is consulted; `m` already carries its new Max-Forwards. */
  function Prepare(m: SipMessage, tag: nat): Prelude {
    var r0 := ReplyTo(m).Touched("T");
    var tagged := HasParameter(Get(r0.headers, "T"), "tag");
    var r1 := if tagged then r0 else r0.AddParameter("T", "tag", TagText(m, tag));
    var tag1 := if tagged then tag else TagAfter(m, tag);
    var r := r1.WithHeader("V", ReplaceParameter(Get(r1.headers, "V"), "rport", "rport=" + Dec(m.address.port)));
    var branch := ParameterOf(Get(m.headers, "V"), "branch");
    Prelude(m.Touched("V").Touched("F"), r,
            if branch == "" then "branch=z9hG4bK" + TagText(m, tag1) else "branch=" + branch,
            if branch == "" then TagAfter(m, tag1) else tag1)
  }

  // ---------------------------------------------------------------- the caller

  datatype Caller =
    | Admitted(accounts: Accounts, m: SipMessage, r: SipMessage)
    | Refused(accounts: Accounts, m: SipMessage, r: SipMessage)
    | CallerThrew(accounts: Accounts, m: SipMessage)

  /** A caller who is not registered at present has to present credentials; good ones update To's entry. */
  function Questioned(env: Env, config: Config, accounts: Accounts, m: SipMessage, r: SipMessage,
                      svc: Endpoint, nonce: string, now: Time): Caller
  {
    match Presented(config.domain, m.headers)
    case Threw => CallerThrew(accounts, m)
    case Returned(p) =>
      if Permitted(env, config, accounts, m, p) then
        Admitted(UpdatedAccounts(config, accounts, m, now), UpdateTouches(accounts, m), UpdatedReply(accounts, m, r))
      else
        Refused(accounts, m, Challenged(env, config, m, r, svc, nonce).(body := ""))
  }

  function CallerStep(env: Env, config: Config, accounts: Accounts, m0: SipMessage, r: SipMessage,
                      svc: Endpoint, nonce: string, now: Time): Caller
  {
    var from := FromKey(m0);
    if from !in accounts then Admitted(accounts, m0, r)
    else
      var m := m0.(keyFrom := accounts[from].Key());
      if m.command.Register? then Admitted(LocatedAt(accounts, from, now), m, r)
      else if LiveAt(accounts, from, now) then Admitted(PurgedAt(accounts, from, now), m, r)
      else Questioned(env, config, PurgedAt(accounts, from, now), m, r, svc, nonce, now)
  }

  // ---------------------------------------------------------------- the callee

  /** To's entry purged and given a first location, and the routing key noted. */
  function CalleeAccounts(accounts: Accounts, m: SipMessage, now: Time): Accounts {
    LocatedAt(accounts, ToKey(m), now)
  }

  function CalleeNoted(accounts: Accounts, m: SipMessage): (r: SipMessage)
    ensures ToKey(r) == ToKey(m)
  {
    var t := m.Touched("T");
    if ToKey(m) in accounts then t.(key := accounts[ToKey(m)].Key()) else t
  }

  function Transported(proto: Proto, via: string): string {
    var p := IndexOf(via, ' ', 0);
    if p > 0 then "SIP/2.0/" + Upper(ProtoName(proto)) + via[p..] else via
  }

  /** The copy of a request sent on to an entry's first location, if its host resolves. */
  function Routed(env: Env, a: Address, m: SipMessage): Option<SipMessage>
    requires a.locations != []
  {
    var l := a.locations[0];
    match env.resolve(l.host)
    case None => None
    case Some(ip) =>
      Some(m.(address := Endpoint(ip, l.port % 0x1_0000), proto := l.proto).WithHeader("T", a.TaggedUri()))
  }

  function Validated(m: SipMessage): SipMessage {
    m.WithHeader("V", Transported(m.proto, Get(m.headers, "V")))
  }

  /** ACK, CANCEL, INVITE and OPTIONS on their way to the callee. */
  function Called(env: Env, a: Address, m: SipMessage, received: string): seq<SipMessage>
    requires a.locations != []
  {
    match Routed(env, a, m.(commandParam := a.Uri()))
    case None => []
    case Some(f) => [Validated(f).AddParameter("V", "received", received)]
  }

  function NotFound(r: SipMessage): SipMessage {
    r.(code := 404, body := "").WithHeader("L", "0")
  }

  function Capabilities(r: SipMessage, received: string): SipMessage {
    r.(body := "", headers := r.headers - {"Max-Forwards"})
     .AddParameter("V", "received", received)
     .WithHeader("Allow", ALLOWED_METHODS)
     .WithHeader("Accept", "application/sdp")
     .WithHeader("Accept-Encoding", "")
     .WithHeader("Accept-Language", "en")
     .WithHeader("K", "")
     .WithHeader("Allow-Events", "")
  }

  function Relabelled(m: SipMessage, svc: Endpoint, branch: string, len: string): SipMessage {
    m.WithHeader("V", "SIP/2.0/" + Upper(ProtoName(m.proto)) + " " + svc.ip + ":" + Dec(svc.port) + ";" + branch)
     .WithHeader("L", len)
  }

  predicate FirstIsLive(a: Address, now: int) {
    a.locations != [] && !a.locations[0].IsExpired(now)
  }

  /** Requests that need a registered callee.  `accounts` is the registry after CalleeAccounts. */
  function CalleeReplies(env: Env, config: Config, accounts: Accounts, m: SipMessage, r: SipMessage, branch: string,
                         svc: Endpoint, now: Time): seq<SipMessage>
    requires ToKey(m) in accounts ==> accounts[ToKey(m)].locations != []
  {
    if ToKey(m) !in accounts then []
    else
      var a := accounts[ToKey(m)];
      match m.command
      case Ack | Cancel =>
        if FirstIsLive(a, now) then Called(env, a, m, m.address.ip) else [NotFound(r)]
      case Invite =>
        if FirstIsLive(a, now) then Called(env, a, m, if m.address.port == 0 then config.ip else m.address.ip)
        else [NotFound(r)]
      case Options =>
        if FromKey(m) !in accounts then []
        else if accounts[FromKey(m)].id == a.id then [Capabilities(r, m.address.ip)]
        else Called(env, a, m, m.address.ip)
      case Bye =>
        if !FirstIsLive(a, now) then []
        else
          var f := Routed(env, a, m);
          if f.None? then [] else [Validated(f.value)]
      case Message =>
        if !FirstIsLive(a, now) then [NotFound(r)]
        else
          var f := Routed(env, a, m);
          [r.(code := 200).WithHeader("L", "0")]
          + if f.None? then [] else [Relabelled(f.value, svc, branch, Get(r.headers, "L"))]
      case _ => []
  }

  /** The body of the command switch. */
  function CalleeStep(env: Env, config: Config, accounts: Accounts, m: SipMessage, r: SipMessage, branch: string,
                      tag: nat, svc: Endpoint, nonce: string, now: Time): Step
    requires ToKey(m) in accounts ==> accounts[ToKey(m)].locations != []
  {
    match m.command
    case Register =>
      (match Presented(config.domain, m.headers)
       case Threw => Step(accounts, tag, m, [], true)
       case Returned(p) =>
         if Permitted(env, config, accounts, m, p) then
           Step(UpdatedAccounts(config, accounts, m, now), tag, UpdateTouches(accounts, m),
                [UpdatedReply(accounts, m, r).(body := "")], false)
         else
           Step(accounts, tag, m, [Challenged(env, config, m, r, svc, nonce).(body := "")], false))
    case Ack | Cancel | Invite | Options | Bye | Message =>
      Step(accounts, tag, m, CalleeReplies(env, config, accounts, m, r, branch, svc, now), false)
    case Subscribe =>
      Step(accounts, tag, m, [r], false)
    case _ =>
      Step(accounts, tag, m, [r.(code := 501, body := "")], false)
  }

  // ---------------------------------------------------------------- responses

  function ResponseTouches(m: SipMessage): SipMessage {
    if m.code != 200 then m
    else
      var t := m.Touched("CSeq");
      if EndsWith(Upper(Get(m.headers, "CSeq")), "REGISTER") then t.Touched("V").Touched("T") else t
  }

  predicate Cyclic(l: SipLocation, sender: Endpoint) {
    (l.proto.Udp? || l.proto.Tcp?) && EqualsIgnoreCase(l.host, sender.ip) && l.port == sender.port
  }

  /** processResponse.  The address comparison of the source is always true, so only the port decides
      whether the relayed response would come back here. */
  function ResponseStep(env: Env, accounts: Accounts, m0: SipMessage, tag: nat, now: Time): Step {
    var m, from := m0.Touched("F"), FromKey(m0);
    if from !in accounts then Step(accounts, tag, m, [], false)
    else
      var located := LocatedAt(accounts, from, now);
      var l := located[from].locations[0];
      if Cyclic(l, m.address) then Step(located, tag, m, [], false)
      else
        var t := ResponseTouches(m);
        match env.resolve(l.host)
        case None => Step(located, tag, t, [], false)
        case Some(ip) =>
          var relay := t.(proto := l.proto, key := accounts[from].Key(), address := Endpoint(ip, l.port % 0x1_0000));
          Step(located, tag, t, if relay.address.port == 5060 then []
            else [relay.AddParameter("V", "received", l.host)], false)
  }

  // ---------------------------------------------------------------- one message

  function RequestStep(env: Env, config: Config, accounts: Accounts, m: SipMessage, tag: nat,
                       svc: Endpoint, nonce: string, now: Time): Step
  {
    var start := Prepare(m, tag);
    match CallerStep(env, config, accounts, start.m, start.r, svc, nonce, now)
    case CallerThrew(accounts1, m1) => Step(accounts1, start.tag, m1, [], true)
    case Refused(accounts1, m1, r1) => Step(accounts1, start.tag, m1, [r1], false)
    case Admitted(accounts1, m1, r1) =>
      CalleeStep(env, config, CalleeAccounts(accounts1, m1, now), CalleeNoted(accounts1, m1), r1, start.branch,
                 start.tag, svc, nonce, now)
  }

  function MessageStep(env: Env, config: Config, accounts: Accounts, m: SipMessage, tag: nat,
                       svc: Endpoint, nonce: string, now: Time): Step
  {
    if m.MaxForwards() == 0 then Step(accounts, tag, m.Touched("Max-Forwards"), [], false)
    else
      var m1 := m.WithMaxForwards(ToInt32(m.MaxForwards() - 1));
      if m1.command.Response? then ResponseStep(env, accounts, m1, tag, now)
      else RequestStep(env, config, accounts, m1, tag, svc, nonce, now)
  }
}
