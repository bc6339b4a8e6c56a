/** What a sender is told: the status of the answer to every request (SipDialog.cpp). */
module Answering {
  import opened Wrappers
  import opened Text
  import opened AddressText
  import opened AccountMap
  import opened Messages
  import opened Digest
  import opened DigestPrinter
  import opened DigestResponse
  import opened Proxy
  import opened Registrar
  import opened Routing

  // ---------------------------------------------------------------- the answer to a REGISTER

  /** The status of the answer among the messages a request produces; an answer always comes first. */
  function Status(replies: seq<SipMessage>): Option<int> {
    if replies == [] || !replies[0].command.Response? then None else Some(replies[0].code)
  }

  /** The Authorization header is a Digest header with a lone double quote for a value. */
  predicate Garbled(m: SipMessage) {
    "Authorization" in m.headers && Unreadable(m.headers["Authorization"])
  }

  /** Exactly then the credentials cannot be read. */
  lemma GarbledThrows(domain: string, m: SipMessage)
    ensures Presented(domain, m.headers).Threw? <==> Garbled(m)
  {
    hide ParseHeader, Unreadable;
    if "Authorization" in m.headers {
      HeaderThrows(BLANK, m.headers["Authorization"]);
    }
  }

  lemma GarbledIsNotGranted(env: Env, config: Config, accounts: Accounts, m: SipMessage, now: int)
    requires Garbled(m)
    ensures !UpdateGranted(env, config, accounts, m, now)
  {
    hide Presented, Garbled, Permitted, ParseInt, LiveAt;
    GarbledThrows(config.domain, m);
  }

  lemma PreparedAnswersOk(m: SipMessage, tag: nat)
    ensures Prepare(m, tag).r.code == 200 && Prepare(m, tag).r.command.Response?
  {
    hide ReplaceParameter, ParameterOf, HasParameter, Dec;
  }

  /** A REGISTER whose credentials are not garbled is answered exactly once: 200 if and only if it is granted, and
      otherwise 401 with a challenge for its sender. */
  lemma RegisterAnswer(env: Env, config: Config, accounts: Accounts, m: SipMessage, tag: nat,
                       svc: Endpoint, nonce: string, now: Time)
    requires m.command.Register? && m.MaxForwards() != 0 && !Garbled(m)
    ensures var s := MessageStep(env, config, accounts, m, tag, svc, nonce, now);
            var granted := UpdateGranted(env, config, accounts, m, now);
            |s.replies| == 1 && !s.threw && Status(s.replies) == Some(if granted then 200 else 401) &&
            (!granted ==> Get(s.replies[0].headers, "WWW-Authenticate")
                          == GetValue(ChallengeParams(env, config, m, svc, nonce), true))
  {
    hide Prepare, LocatedAt, Presented, Permitted, UpdatedAccounts, UpdateTouches, KeyOf, GetValue, ParseInt, Dec,
      SameView, ReadsLike, ChallengeParams, LiveAt, CalleeNoted, UpdatedReply, Garbled;
    GarbledThrows(config.domain, m);
    var m1 := m.WithMaxForwards(ToInt32(m.MaxForwards() - 1));
    var start := Prepare(m1, tag);
    PreparedReadsLike(m, tag);
    PreparedAnswersOk(m1, tag);
    CommandReads(m, start.m);
    var c := CallerStep(env, config, accounts, start.m, start.r, svc, nonce, now);
    var from := FromKey(start.m);
    LookupKeepsView(accounts, from, now);
    SameViewReflexive(accounts, now);
    NotedReadsLike(accounts, m, start.m);
    assert c.Admitted? && c.r == start.r && ReadsLike(m, c.m) && SameView(c.accounts, accounts, now);
    var located, noted := CalleeAccounts(c.accounts, c.m, now), CalleeNoted(c.accounts, c.m);
    LookupKeepsView(c.accounts, ToKey(c.m), now);
    SameViewTransitive(located, c.accounts, accounts, now);
    NotedReadsLike(c.accounts, m, c.m);
    AnswerToRegister(env, config, accounts, located, m, noted, start.r, start.branch, start.tag, svc, nonce, now);
  }

  lemma AnswerToRegister(env: Env, config: Config, accounts: Accounts, located: Accounts, m: SipMessage,
                         noted: SipMessage,
                         r: SipMessage, branch: string, tag: nat, svc: Endpoint, nonce: string, now: Time)
    requires m.command.Register? && m.MaxForwards() != 0 && Presented(config.domain, m.headers).Returned?
    requires SameView(located, accounts, now) && ReadsLike(m, noted) && r.code == 200 && r.command.Response?
    requires ToKey(noted) in located ==> located[ToKey(noted)].locations != []
    ensures var s := CalleeStep(env, config, located, noted, r, branch, tag, svc, nonce, now);
            var granted := UpdateGranted(env, config, accounts, m, now);
            |s.replies| == 1 && !s.threw && Status(s.replies) == Some(if granted then 200 else 401) &&
            (!granted ==> Get(s.replies[0].headers, "WWW-Authenticate")
                          == GetValue(ChallengeParams(env, config, m, svc, nonce), true))
  {
    hide Presented, Permitted, UpdatedAccounts, UpdateTouches, KeyOf, GetValue, ParseInt, Dec, SameView, LiveAt, H,
      Id, FromKey;
    SameReading(m, noted, config.domain);
    SameViewSymmetric(located, accounts, now);
    SameGrant(env, config, accounts, located, m, noted, now);
    assert Get(m.headers, "F") == Get(noted.headers, "F") by { HeaderNames(); }
  }

  // ---------------------------------------------------------------- the answer to any request

  /** The status in terms of the registry after the step, as the command switch finds it. */
  function StatusAfter(env: Env, config: Config, before: Accounts, after: Accounts, m: SipMessage,
                       now: int): Option<int> {
    if !CallerAdmitted(env, config, before, m, now) then
      if Garbled(m) then None else Some(401)
    else
      match m.command
      case Register =>
        if Garbled(m) then None
        else Some(if Granted(env, config, before, m) then 200 else 401)
      case Ack | Cancel | Invite =>
        if ToKey(m) in after && !LiveAt(after, ToKey(m), now) then Some(404) else None
      case Message =>
        if ToKey(m) !in after then None else Some(if LiveAt(after, ToKey(m), now) then 200 else 404)
      case Options =>
        if ToKey(m) in after && FromKey(m) in after && after[FromKey(m)].id == after[ToKey(m)].id
        then Some(200) else None
      case Bye => None
      case Subscribe => Some(200)
      case _ => Some(501)
  }

  lemma CalledIsNoAnswer(env: Env, a: Address, m: SipMessage, received: string)
    requires a.locations != [] && NeedsCallee(m.command)
    ensures Status(Called(env, a, m, received)) == None
  {
    hide Transported;
  }

  lemma RoutedIsNoAnswer(env: Env, a: Address, m: SipMessage)
    requires a.locations != [] && NeedsCallee(m.command) && Routed(env, a, m).Some?
    ensures Status([Validated(Routed(env, a, m).value)]) == None
  {
    hide Transported;
  }

  /** The status within the command switch, for requests that need the callee. */
  lemma CalleeStatus(env: Env, config: Config, accounts: Accounts, m: SipMessage, r: SipMessage, branch: string,
                     svc: Endpoint, now: Time)
    requires NeedsCallee(m.command) && r.command.Response? && r.code == 200
    requires ToKey(m) in accounts ==> accounts[ToKey(m)].locations != []
    ensures var live := ToKey(m) in accounts && FirstIsLive(accounts[ToKey(m)], now);
            Status(CalleeReplies(env, config, accounts, m, r, branch, svc, now)) ==
              match m.command
              case Message => if ToKey(m) !in accounts then None else Some(if live then 200 else 404)
              case Options =>
                if ToKey(m) in accounts && FromKey(m) in accounts && accounts[FromKey(m)].id == accounts[ToKey(m)].id
                then Some(200) else None
              case Bye => None
              case _ => if ToKey(m) in accounts && !live then Some(404) else None
  {
    hide Called, Routed, KeyOf, Transported, Dec, FirstIsLive, Validated, Relabelled;
    if ToKey(m) in accounts {
      var a := accounts[ToKey(m)];
      match m.command
      case Ack | Cancel => CalledIsNoAnswer(env, a, m, m.address.ip);
      case Invite => CalledIsNoAnswer(env, a, m, if m.address.port == 0 then config.ip else m.address.ip);
      case Options => CalledIsNoAnswer(env, a, m, m.address.ip);
      case Bye =>
        if Routed(env, a, m).Some? {
          RoutedIsNoAnswer(env, a, m);
        }
      case Message =>
    }
  }

  /** How the first half of the step ends. */
  lemma CallerStatus(env: Env, config: Config, accounts: Accounts, m: SipMessage, r: SipMessage,
                     svc: Endpoint, nonce: string, now: Time)
    requires r.command.Response? && r.code == 200
    ensures var c := CallerStep(env, config, accounts, m, r, svc, nonce, now);
            (c.CallerThrew? ==> Presented(config.domain, m.headers).Threw?) &&
            (c.Refused? ==> Presented(config.domain, m.headers).Returned? && Status([c.r]) == Some(401)) &&
            (c.Admitted? ==> c.r.command.Response? && c.r.code == 200) &&
            (m.command.Register? ==> c.Admitted?)
  {
    hide PurgedAt, LocatedAt, LiveAt, Presented, Permitted, UpdatedAccounts, KeyOf, GetValue, Dec, ParseInt,
      ChallengeParams;
  }

  lemma AdmittedStatus(env: Env, config: Config, accounts: Accounts, accounts1: Accounts, m: SipMessage, m1: SipMessage,
                       m2: SipMessage, r: SipMessage, branch: string, tag: nat, svc: Endpoint, nonce: string, now: Time)
    requires m1 == m.WithMaxForwards(ToInt32(m.MaxForwards() - 1)) && ForwardsLike(m1, m2)
    requires r.command.Response? && r.code == 200
    requires CallerAdmitted(env, config, accounts, m, now) && !m.command.Register? && !m.command.Response?
    ensures var s := CalleeStep(env, config, CalleeAccounts(accounts1, m2, now), CalleeNoted(accounts1, m2), r, branch,
            tag, svc, nonce, now);
            Status(s.replies) == StatusAfter(env, config, accounts, s.accounts, m, now) && !s.threw
  {
    hide LocatedAt, KeyOf, CallerAdmitted, Dec, ParseInt, CalleeReplies, Presented, CalleeNoted, ForwardsLike,
      FirstIsLive, LiveAt, Garbled;
    var located, noted := CalleeAccounts(accounts1, m2, now), CalleeNoted(accounts1, m2);
    NotedForwards(accounts1, m1, m2);
    SameKeys(m, m1, noted);
    if NeedsCallee(m.command) {
      if ToKey(m) in located {
        LocatedFirst(accounts1, ToKey(m), now);
      }
      CalleeStatus(env, config, located, noted, r, branch, svc, now);
    }
  }

  /** A REGISTER with garbled credentials leaves by an exception, without an answer. */
  lemma RegisterThrows(env: Env, config: Config, accounts: Accounts, m: SipMessage, tag: nat,
                       svc: Endpoint, nonce: string, now: Time)
    requires m.command.Register? && m.MaxForwards() != 0 && Garbled(m)
    ensures var s := MessageStep(env, config, accounts, m, tag, svc, nonce, now); s.threw && s.replies == []
  {
    hide Prepare, LocatedAt, Presented, Permitted, UpdatedAccounts, UpdateTouches, KeyOf, GetValue, ParseInt, Dec,
      ReadsLike, ChallengeParams, LiveAt, CalleeNoted, UpdatedReply, Garbled;
    GarbledThrows(config.domain, m);
    var start := Prepare(m.WithMaxForwards(ToInt32(m.MaxForwards() - 1)), tag);
    PreparedReadsLike(m, tag);
    CommandReads(m, start.m);
    NotedReadsLike(accounts, m, start.m);
    var c := CallerStep(env, config, accounts, start.m, start.r, svc, nonce, now);
    assert c.Admitted? && ReadsLike(m, c.m);
    NotedReadsLike(c.accounts, m, c.m);
    CommandReads(m, CalleeNoted(c.accounts, c.m));
    SameReading(m, CalleeNoted(c.accounts, c.m), config.domain);
  }

  lemma RequestStatus(env: Env, config: Config, accounts: Accounts, m: SipMessage, tag: nat,
                      svc: Endpoint, nonce: string, now: Time)
    requires !m.command.Response? && m.MaxForwards() != 0
    ensures var s := MessageStep(env, config, accounts, m, tag, svc, nonce, now);
            Status(s.replies) == StatusAfter(env, config, accounts, s.accounts, m, now) &&
            (s.threw <==> Garbled(m) && (m.command.Register? || !CallerAdmitted(env, config, accounts, m, now)))
  {
    hide Prepare, CallerStep, CalleeStep, CalleeNoted, CalleeAccounts, KeyOf, ForwardsLike, Answers, Dec, ParseInt,
      Presented, MessageStep, Granted, LiveAt, ReadsLike, Garbled;
    if m.command.Register? {
      if Garbled(m) {
        RegisterThrows(env, config, accounts, m, tag, svc, nonce, now);
      } else {
        RegisterAnswer(env, config, accounts, m, tag, svc, nonce, now);
      }
    } else {
      OtherAnswer(env, config, accounts, m, tag, svc, nonce, now);
    }
  }

  lemma OtherAnswer(env: Env, config: Config, accounts: Accounts, m: SipMessage, tag: nat,
                    svc: Endpoint, nonce: string, now: Time)
    requires !m.command.Response? && !m.command.Register? && m.MaxForwards() != 0
    ensures var s := MessageStep(env, config, accounts, m, tag, svc, nonce, now);
            Status(s.replies) == StatusAfter(env, config, accounts, s.accounts, m, now) &&
            (s.threw <==> Garbled(m) && !CallerAdmitted(env, config, accounts, m, now))
  {
    hide Prepare, CallerStep, CalleeStep, CalleeNoted, CalleeAccounts, KeyOf, CallerAdmitted, ForwardsLike, Answers,
      Dec, ParseInt, Presented, ReadsLike, Granted, LiveAt, Garbled;
    GarbledThrows(config.domain, m);
    var m1 := m.WithMaxForwards(ToInt32(m.MaxForwards() - 1));
    var start := Prepare(m1, tag);
    PreparedForwards(m1, tag);
    PreparedAnswersOk(m1, tag);
    AnswersRespond(m1, start.r);
    PreparedReadsLike(m, tag);
    SameReading(m, start.m, config.domain);
    CallerOutcome(env, config, accounts, start.m, start.r, svc, nonce, now);
    CallerPasses(env, config, accounts, start.m, start.r, svc, nonce, now);
    AdmittedAlike(env, config, accounts, m, m1, tag, now);
    CallerStatus(env, config, accounts, start.m, start.r, svc, nonce, now);
    match CallerStep(env, config, accounts, start.m, start.r, svc, nonce, now)
    case CallerThrew(_, _) =>
    case Refused(_, _, _) =>
    case Admitted(accounts1, m2, r2) =>
      ForwardsThrough(m1, start.m, m2);
      AdmittedStatus(env, config, accounts, accounts1, m, m1, m2, r2, start.branch, start.tag, svc, nonce, now);
  }

  /** What the sender of a request is told, read off the registry before it: 401 to a known caller who is neither
      registered nor has good credentials, 404 when the callee is known but not reachable once the request's own
      update is made, nothing at all when it is unknown. */
  function ExpectedStatus(env: Env, config: Config, accounts: Accounts, m: SipMessage, now: Time): Option<int> {
    if !CallerAdmitted(env, config, accounts, m, now) then
      if Garbled(m) then None else Some(401)
    else
      match m.command
      case Register =>
        if Garbled(m) then None else Some(if Granted(env, config, accounts, m) then 200 else 401)
      case Ack | Cancel | Invite =>
        if ToKey(m) in accounts && !LiveNext(env, config, accounts, m, now) then Some(404) else None
      case Message =>
        if ToKey(m) !in accounts then None else Some(if LiveNext(env, config, accounts, m, now) then 200 else 404)
      case Options =>
        if ToKey(m) in accounts && FromKey(m) in accounts && accounts[FromKey(m)].id == accounts[ToKey(m)].id
        then Some(200) else None
      case Bye => None
      case Subscribe => Some(200)
      case _ => Some(501)
  }

  /** Every request is answered with exactly the expected status, or not at all where none is expected; it leaves
      by an exception exactly when its credentials have to be read and are garbled. */
  lemma RequestAnswer(env: Env, config: Config, accounts: Accounts, m: SipMessage, tag: nat,
                      svc: Endpoint, nonce: string, now: Time)
    requires !m.command.Response? && m.MaxForwards() != 0
    ensures var s := MessageStep(env, config, accounts, m, tag, svc, nonce, now);
            Status(s.replies) == ExpectedStatus(env, config, accounts, m, now) &&
            (s.threw <==> Garbled(m) && (m.command.Register? || !CallerAdmitted(env, config, accounts, m, now)))
  {
    hide MessageStep, CallerAdmitted, Granted, LiveNext, NextLocation, LiveAt, LiveLocation, KeyOf, ParseInt, Garbled,
      Status;
    RequestStatus(env, config, accounts, m, tag, svc, nonce, now);
    NextIsAfter(env, config, accounts, m, tag, svc, nonce, now);
  }

  /** The methods in Allow. */
  const ADVERTISED := [Register, Invite, Ack, Bye, Options, Cancel, Command.Message]

  function NamesText(cs: seq<Command>): string {
    if cs == [] then ""
    else if |cs| == 1 then CommandName(cs[0])
    else CommandName(cs[0]) + ", " + NamesText(cs[1..])
  }

  /** Allow names exactly the methods that are not answered with 501, save that SUBSCRIBE, which is answered with
      200, is not among them. */
  lemma AllowedAreHandled(env: Env, config: Config, accounts: Accounts, m: SipMessage, now: Time)
    requires CallerAdmitted(env, config, accounts, m, now) && !m.command.Response?
    ensures ALLOWED_METHODS == NamesText(ADVERTISED)
    ensures ExpectedStatus(env, config, accounts, m, now) == Some(501) <==>
            m.command !in ADVERTISED && m.command != Subscribe
  {
    hide CallerAdmitted, LiveNext, Granted, Garbled, KeyOf, NamesText;
    AllowedText();
  }

  lemma AllowedText()
    ensures ALLOWED_METHODS == NamesText(ADVERTISED)
  {
    hide NamesText;
    OneName(Command.Message);
    NamesStep(Cancel, [Command.Message]);
    NamesStep(Options, [Cancel, Command.Message]);
    NamesStep(Bye, [Options, Cancel, Command.Message]);
    NamesStep(Ack, [Bye, Options, Cancel, Command.Message]);
    NamesStep(Invite, [Ack, Bye, Options, Cancel, Command.Message]);
    NamesStep(Register, [Invite, Ack, Bye, Options, Cancel, Command.Message]);
    assert [Cancel] + [Command.Message] == [Cancel, Command.Message];
    assert [Options] + [Cancel, Command.Message] == [Options, Cancel, Command.Message];
    assert [Bye] + [Options, Cancel, Command.Message] == [Bye, Options, Cancel, Command.Message];
    assert [Ack] + [Bye, Options, Cancel, Command.Message] == [Ack, Bye, Options, Cancel, Command.Message];
    assert [Invite] + [Ack, Bye, Options, Cancel, Command.Message]
      == [Invite, Ack, Bye, Options, Cancel, Command.Message];
    assert [Register] + [Invite, Ack, Bye, Options, Cancel, Command.Message] == ADVERTISED;
  }

  lemma OneName(c: Command)
    ensures NamesText([c]) == CommandName(c)
  {
  }

  lemma NamesStep(c: Command, cs: seq<Command>)
    requires cs != []
    ensures NamesText([c] + cs) == CommandName(c) + ", " + NamesText(cs)
  {
    assert ([c] + cs)[1..] == cs;
  }

  // ---------------------------------------------------------------- the key an answer carries

  predicate AnswersCarry(replies: seq<SipMessage>, key: string) {
    forall f :: f in replies && f.command.Response? ==> f.key == key
  }

  /** Whose message it is noted to be: in answers and in copies. */
  predicate NamesCaller(replies: seq<SipMessage>, inAnswers: string, inCopies: string) {
    forall f :: f in replies ==> f.keyFrom == if f.command.Response? then inAnswers else inCopies
  }

  lemma PreparedKey(m: SipMessage, tag: nat)
    ensures Prepare(m, tag).r.key == (if m.command.Invalid? then "" else m.key)
            && Prepare(m, tag).m.command == m.command
    ensures Prepare(m, tag).r.keyFrom == (if m.command.Invalid? then "" else m.keyFrom)
            && Prepare(m, tag).m.keyFrom == m.keyFrom
            && Get(Prepare(m, tag).m.headers, "F") == Get(m.headers, "F") && Prepare(m, tag).r.command.Response?
  {
    hide ReplaceParameter, ParameterOf, HasParameter, Dec;
  }

  lemma CallerKey(env: Env, config: Config, accounts: Accounts, m: SipMessage, r: SipMessage,
                  svc: Endpoint, nonce: string, now: Time)
    ensures var c := CallerStep(env, config, accounts, m, r, svc, nonce, now);
            (!c.CallerThrew? ==> c.r.key == r.key && c.r.keyFrom == r.keyFrom && c.r.command == r.command)
            && c.m.command == m.command
            && c.m.keyFrom == if FromKey(m) in accounts then accounts[FromKey(m)].Key() else m.keyFrom
  {
    hide PurgedAt, LocatedAt, LiveAt, Presented, Permitted, UpdatedAccounts, KeyOf, GetValue, Dec, ParseInt,
      ChallengeParams;
  }

  lemma CalledIsRequest(env: Env, a: Address, m: SipMessage, received: string)
    requires a.locations != []
    ensures forall f :: f in Called(env, a, m, received) ==> f.command == m.command && f.keyFrom == m.keyFrom
  {
    hide Transported;
  }

  lemma RoutedIsRequest(env: Env, a: Address, m: SipMessage, svc: Endpoint, branch: string, len: string)
    requires a.locations != [] && Routed(env, a, m).Some?
    ensures var f := Validated(Routed(env, a, m).value); f.command == m.command && f.keyFrom == m.keyFrom
    ensures var f := Relabelled(Routed(env, a, m).value, svc, branch, len);
            f.command == m.command && f.keyFrom == m.keyFrom
  {
    hide Transported, Dec, Upper;
  }

  lemma CalleeKey(env: Env, config: Config, accounts: Accounts, m: SipMessage, r: SipMessage, branch: string,
                  svc: Endpoint, now: Time)
    requires NeedsCallee(m.command) && (ToKey(m) in accounts ==> accounts[ToKey(m)].locations != [])
    ensures var replies := CalleeReplies(env, config, accounts, m, r, branch, svc, now);
            AnswersCarry(replies, r.key) && (r.command.Response? ==> NamesCaller(replies, r.keyFrom, m.keyFrom))
  {
    hide Called, Routed, KeyOf, Dec, FirstIsLive, Validated, Relabelled;
    if ToKey(m) in accounts {
      var a := accounts[ToKey(m)];
      CalledIsRequest(env, a, m, m.address.ip);
      CalledIsRequest(env, a, m, config.ip);
      if Routed(env, a, m).Some? {
        RoutedIsRequest(env, a, m, svc, branch, Get(r.headers, "L"));
      }
    }
  }

  lemma CalleeStepKey(env: Env, config: Config, accounts: Accounts, m: SipMessage, r: SipMessage, branch: string,
                      tag: nat, svc: Endpoint, nonce: string, now: Time)
    requires !m.command.Response? && (ToKey(m) in accounts ==> accounts[ToKey(m)].locations != [])
    ensures var replies := CalleeStep(env, config, accounts, m, r, branch, tag, svc, nonce, now).replies;
            AnswersCarry(replies, r.key) && (r.command.Response? ==> NamesCaller(replies, r.keyFrom, m.keyFrom))
  {
    hide CalleeReplies, Presented, Permitted, UpdatedAccounts, KeyOf, GetValue, ParseInt, Dec, ChallengeParams;
    if NeedsCallee(m.command) {
      CalleeKey(env, config, accounts, m, r, branch, svc, now);
    }
  }

  /** Every answer carries the key its request came with, which for a WebSocket request is that of its connection;
      every copy names its caller by the key of From's entry. */
  lemma AnswersKeepKey(env: Env, config: Config, accounts: Accounts, m: SipMessage, tag: nat,
                       svc: Endpoint, nonce: string, now: Time)
    requires !m.command.Response? && !m.command.Invalid?
    ensures var replies := MessageStep(env, config, accounts, m, tag, svc, nonce, now).replies;
            AnswersCarry(replies, m.key) &&
            NamesCaller(replies, m.keyFrom,
                        if FromKey(m) in accounts then accounts[FromKey(m)].Key() else m.keyFrom)
  {
    hide Prepare, CallerStep, CalleeStep, KeyOf, Dec, ParseInt, LocatedAt;
    var m1 := m.WithMaxForwards(ToInt32(m.MaxForwards() - 1));
    var start := Prepare(m1, tag);
    PreparedKey(m1, tag);
    CountedDown(m, m1);
    CallerKey(env, config, accounts, start.m, start.r, svc, nonce, now);
    var c := CallerStep(env, config, accounts, start.m, start.r, svc, nonce, now);
    if c.Admitted? {
      CalleeStepKey(env, config, CalleeAccounts(c.accounts, c.m, now), CalleeNoted(c.accounts, c.m), c.r, start.branch,
                    start.tag, svc, nonce, now);
    }
  }

  // ---------------------------------------------------------------- the message after the step

  lemma StepKeepsCommand(env: Env, config: Config, accounts: Accounts, m: SipMessage, tag: nat,
                         svc: Endpoint, nonce: string, now: Time)
    ensures MessageStep(env, config, accounts, m, tag, svc, nonce, now).m.command == m.command
  {
    hide Prepare, CallerStep, CalleeStep, ResponseStep, KeyOf, Dec, ParseInt, LocatedAt;
    var m1 := m.WithMaxForwards(ToInt32(m.MaxForwards() - 1));
    var start := Prepare(m1, tag);
    ResponseKeepsCommand(env, accounts, m1, tag, now);
    PreparedKey(m1, tag);
    CallerKey(env, config, accounts, start.m, start.r, svc, nonce, now);
    var c := CallerStep(env, config, accounts, start.m, start.r, svc, nonce, now);
    CalleeKeepsCommand(env, config, CalleeAccounts(c.accounts, c.m, now), CalleeNoted(c.accounts, c.m),
                       if c.CallerThrew? then start.r else c.r, start.branch, start.tag, svc, nonce, now);
  }

  lemma ResponseKeepsCommand(env: Env, accounts: Accounts, m: SipMessage, tag: nat, now: Time)
    ensures ResponseStep(env, accounts, m, tag, now).m.command == m.command
  {
    hide KeyOf, LocatedAt, Cyclic;
  }

  lemma CalleeKeepsCommand(env: Env, config: Config, accounts: Accounts, m: SipMessage, r: SipMessage, branch: string,
                           tag: nat, svc: Endpoint, nonce: string, now: Time)
    requires ToKey(m) in accounts ==> accounts[ToKey(m)].locations != []
    ensures CalleeStep(env, config, accounts, m, r, branch, tag, svc, nonce, now).m.command == m.command
  {
    hide CalleeReplies, Presented, Permitted, UpdatedAccounts, UpdatedReply, Challenged, KeyOf, ParseInt;
  }

  /** A REGISTER still names its sender when the step is done. */
  lemma RegisterKeepsFrom(env: Env, config: Config, accounts: Accounts, m: SipMessage, tag: nat,
                          svc: Endpoint, nonce: string, now: Time)
    requires m.command.Register? && m.MaxForwards() != 0
    ensures Get(MessageStep(env, config, accounts, m, tag, svc, nonce, now).m.headers, "F") == Get(m.headers, "F")
  {
    hide Prepare, LocatedAt, Presented, Permitted, UpdatedAccounts, UpdateTouches, KeyOf, GetValue, ParseInt, Dec,
      ReadsLike, ChallengeParams, LiveAt, CalleeNoted, UpdatedReply, Challenged;
    var start := Prepare(m.WithMaxForwards(ToInt32(m.MaxForwards() - 1)), tag);
    PreparedReadsLike(m, tag);
    CommandReads(m, start.m);
    NotedReadsLike(accounts, m, start.m);
    var c := CallerStep(env, config, accounts, start.m, start.r, svc, nonce, now);
    assert c.Admitted? && ReadsLike(m, c.m);
    var located, noted := CalleeAccounts(c.accounts, c.m, now), CalleeNoted(c.accounts, c.m);
    NotedReadsLike(c.accounts, m, c.m);
    CommandReads(m, noted);
    NotedReadsLike(located, m, noted);
    FromReads(m, noted);
    FromReads(m, UpdateTouches(located, noted));
  }

  lemma FromReads(m: SipMessage, n: SipMessage)
    requires ReadsLike(m, n)
    ensures Get(m.headers, "F") == Get(n.headers, "F")
  {
    HeaderNames();
    assert |"F"| == 1;
  }
}
