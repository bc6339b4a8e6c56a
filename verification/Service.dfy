/** A message from its arrival at a listener to the transports its responses are handed to (SipServer.cpp,
    WSListener.cpp, SipDialog.cpp). */
module Service {
  import opened Wrappers
  import opened Text
  import opened Locations
  import opened AddressText
  import opened AccountMap
  import opened Messages
  import opened Proxy
  import opened Answering
  import opened Routing
  import opened Hops
  import opened ConnectionIndex
  import opened Delivery
  import opened Dialog
  import opened Listeners
  import opened EndToEnd

  // ---------------------------------------------------------------- everything is sent once

  /** What a message that was not sent yet produces was not sent yet either. */
  lemma RepliesAreUnsent(env: Env, config: Config, accounts: Accounts, m: SipMessage, tag: nat,
                         svc: Endpoint, nonce: string, now: Time)
    requires env.resolve("") == None && Unsent(m)
    ensures forall f :: f in MessageStep(env, config, accounts, m, tag, svc, nonce, now).replies ==> Unsent(f)
  {
    hide MessageStep, CanRelay, CanForward, ParseInt, Dec, KeyOf, LiveAt, SentTo;
    if m.MaxForwards() == 0 {
      Dropped(env, config, accounts, m, tag, svc, nonce, now);
    } else if m.command.Response? {
      ResponseRouting(env, config, accounts, m, tag, svc, nonce, now);
    } else {
      RequestRouting(env, config, accounts, m, tag, svc, nonce, now);
    }
  }

  /** A message that arrives at the socket server: everything it produces is handed over as expected, in order,
      each message to its own transport once, or not at all where there is no way out. */
  lemma EachReplyOnce(env: Env, config: Config, accounts: Accounts, m: SipMessage, tag: nat,
                      svc: Endpoint, nonce: string, now: Time, net: Net, works: seq<bool>)
    requires env.resolve("") == None && Unsent(m) && net.Valid() && net.linked
    requires |works| == |MessageStep(env, config, accounts, m, tag, svc, nonce, now).replies|
    ensures var replies := MessageStep(env, config, accounts, m, tag, svc, nonce, now).replies;
            SendAll(net, replies, works).attempts == ExpectedAll(net, replies)
  {
    hide MessageStep, SendAll, ExpectedAll;
    RepliesAreUnsent(env, config, accounts, m, tag, svc, nonce, now);
    var replies := MessageStep(env, config, accounts, m, tag, svc, nonce, now).replies;
    assert forall i :: 0 <= i < |replies| ==> replies[i] in replies;
    SendAllAttempts(net, replies, works);
  }

  /** The same for a message from a connection, up to the first message that fails. */
  lemma EachReplyOnceFromConnection(env: Env, config: Config, accounts: Accounts, m: SipMessage, tag: nat,
                                    svc: Endpoint, nonce: string, now: Time, net: Net, h: Handle, works: seq<bool>)
    requires env.resolve("") == None && Unsent(m) && net.Valid() && net.linked && h in net.index.connections
    requires |works| == |MessageStep(env, config, accounts, m, tag, svc, nonce, now).replies|
    ensures var s := MessageStep(env, config, accounts, m, tag, svc, nonce, now);
            RespondAll(net, h, s.m, config.domain, s.replies, works).attempts
            == ExpectedLoop(net, h, s.m, config.domain, s.replies,
              Reached(net, h, s.m, config.domain, s.replies, works, 0))
  {
    hide MessageStep, RespondAll, ExpectedLoop, Reached;
    RepliesAreUnsent(env, config, accounts, m, tag, svc, nonce, now);
    var s := MessageStep(env, config, accounts, m, tag, svc, nonce, now);
    assert forall i :: 0 <= i < |s.replies| ==> s.replies[i] in s.replies;
    LoopAttempts(net, h, s.m, config.domain, s.replies, works);
  }

  // ---------------------------------------------------------------- who is answered

  /** Answers to a request from an open WebSocket connection.  They carry the connection's key and are looked up by
      it, so they go back over the connection exactly when it has no key, or is the last one the key was assigned
      to, be it by the answer itself; after another connection has taken the key they go there, or nowhere once
      that is closed. */
  lemma AnswersGoBack(env: Env, config: Config, accounts: Accounts, m: SipMessage, tag: nat, svc: Endpoint,
                      nonce: string,
                      now: Time, net: Net, events: seq<Event>, h: Handle, i: nat)
    requires env.resolve("") == None && !m.command.Response? && !m.command.Invalid? && m.proto == Ws
    requires net.Valid() && net.index == After(events) && Disciplined(events) && IsOpen(events, h)
    requires var s := MessageStep(env, config, accounts, m, tag, svc, nonce, now);
             i < |s.replies| && s.replies[i].command.Response?
    ensures var s := MessageStep(env, config, accounts, m, tag, svc, nonce, now);
            HandedTo(Expected(NetAt(net, h, s.m, config.domain, s.replies, i), s.replies[i].(conn := Some(h))), h) <==>
            m.key == "" || MostRecent(events, m.key, h)
            || (ConfirmedBy(s.m, s.replies, i) && m.key == UserKey(s.m, config.domain))
  {
    hide MessageStep, CanForward, ForwardedCopy, IsOpen, MostRecent, After, Disciplined, Expected, UserKey,
      ConfirmedBy, ParseInt;
    var s := MessageStep(env, config, accounts, m, tag, svc, nonce, now);
    if m.MaxForwards() == 0 {
      Dropped(env, config, accounts, m, tag, svc, nonce, now);
      assert false;
    }
    RequestRouting(env, config, accounts, m, tag, svc, nonce, now);
    AnswersKeepKey(env, config, accounts, m, tag, svc, nonce, now);
    assert s.replies[i] in s.replies;
    ReplyGoesBack(net, events, h, s.m, config.domain, s.replies, i, m.key);
  }

  lemma ReplyGoesBack(net: Net, events: seq<Event>, h: Handle, request: SipMessage, domain: string, rs: seq<SipMessage>,
                      i: nat, key: string)
    requires net.Valid() && net.index == After(events) && Disciplined(events) && IsOpen(events, h)
    requires i < |rs| && rs[i].command.Response? && rs[i].proto == Ws && rs[i].key == key
    ensures HandedTo(Expected(NetAt(net, h, request, domain, rs, i), rs[i].(conn := Some(h))), h) <==>
            key == "" || MostRecent(events, key, h) || (ConfirmedBy(request, rs, i) && key == UserKey(request, domain))
  {
    hide IsOpen, MostRecent, After, Disciplined, Expected, UserKey, ConfirmedBy, HandedTo;
    var r := rs[i].(conn := Some(h));
    if ConfirmedBy(request, rs, i) {
      var given := UserKey(request, domain);
      var more := events + [Assign(h, given)];
      AssignedMore(events, h, given);
      assert NetAt(net, h, request, domain, rs, i) == net.(index := After(more));
      AnswerGoesBack(net.(index := After(more)), more, h, r);
      MostRecentStep(events, Assign(h, given), key, h);
    } else {
      AnswerGoesBack(net, events, h, r);
    }
  }

  // ---------------------------------------------------------------- calls to a WebSocket user

  /** The key a 200 to a REGISTER assigns to the connection is the registry key of the caller. */
  lemma UserKeyIsFromKey(config: Config, accounts: Accounts, m: SipMessage)
    requires KnownCaller(config, accounts, m)
    ensures UserKey(m, config.domain) == FromKey(m)
  {
    hide Id, AddressText.Domain, Keyed;
    var from := Get(m.headers, "F");
    assert accounts[FromKey(m)].Key() == FromKey(m) by { OwnKey(accounts, FromKey(m)); }
    ResolutionIsStable(from, accounts[FromKey(m)]);
    if ':' !in from && '@' !in from {
      NoColonNoId(from);
      assert false;
    }
  }

  /** A From header that is nothing but a user name is taken for the user. */
  lemma BareUserKey(request: SipMessage, domain: string)
    requires Free(Get(request.headers, "F"), ':') && Free(Get(request.headers, "F"), '@')
    ensures UserKey(request, domain) == Get(request.headers, "F") + "@" + domain
  {
  }

  lemma NoColonNoId(line: string)
    requires ':' !in line
    ensures Id(line) == ""
  {
    hide IndexOf;
  }

  /** The place a copy of the request would go to is a WebSocket connection. */
  predicate CopyOverWs(env: Env, config: Config, accounts: Accounts, m: SipMessage, now: Time) {
    LiveNext(env, config, accounts, m, now) ==> NextLocation(env, config, accounts, m, now).proto == Ws
  }

  /** The place the response would be relayed to is one. */
  predicate RelayOverWs(accounts: Accounts, m: SipMessage, now: Time) {
    LiveAt(accounts, FromKey(m), now) ==> LiveLocation(accounts, FromKey(m), now).proto == Ws
  }

  /** The copy of a request that goes out over WebSocket is fresh and carries the callee's key. */
  lemma CopyIsKeyed(env: Env, config: Config, accounts: Accounts, call: SipMessage, tag: nat, svc: Endpoint,
                    nonce: string, now: Time, f: SipMessage)
    requires env.resolve("") == None && Unsent(call) && !call.command.Response?
    requires var s := MessageStep(env, config, accounts, call, tag, svc, nonce, now);
             f in s.replies && f.command == call.command && Keyed(s.accounts)
    requires CopyOverWs(env, config, accounts, call, now)
    ensures f.proto == Ws && f.key == ToKey(call) && f.key != "" && Unsent(f)
  {
    hide MessageStep, RequestOutcome, ParseInt, Dec, KeyOf, Keyed, LiveNext, NextLocation;
    var s := MessageStep(env, config, accounts, call, tag, svc, nonce, now);
    var n := Node(env, config, accounts, tag, svc, nonce, now);
    HopCountsDown(n, call, f);
    RequestRouting(env, config, accounts, call, tag, svc, nonce, now);
    ForwardedHops(n, s.accounts, s.replies, call, f);
    RepliesAreUnsent(env, config, accounts, call, tag, svc, nonce, now);
    OwnKey(s.accounts, ToKey(call));
    KeyHasAt(Get(call.headers, "T"));
  }

  /** A relayed response that goes out over WebSocket is fresh and carries the key of the caller From names. */
  lemma RelayIsKeyed(env: Env, config: Config, accounts: Accounts, m: SipMessage, tag: nat, svc: Endpoint,
                     nonce: string, now: Time, f: SipMessage)
    requires env.resolve("") == None && Unsent(m) && m.command.Response? && Keyed(accounts)
    requires f in MessageStep(env, config, accounts, m, tag, svc, nonce, now).replies
    requires RelayOverWs(accounts, m, now)
    ensures f.proto == Ws && f.key == FromKey(m) && f.key != "" && f.command.Response? && Unsent(f)
  {
    hide MessageStep, ParseInt, Dec, KeyOf, Keyed, LiveAt, LiveLocation, CanRelay;
    if m.MaxForwards() == 0 {
      Dropped(env, config, accounts, m, tag, svc, nonce, now);
      assert false;
    }
    ResponseRouting(env, config, accounts, m, tag, svc, nonce, now);
    RepliesAreUnsent(env, config, accounts, m, tag, svc, nonce, now);
    KnownWhenLive(accounts, FromKey(m), now);
    OwnKey(accounts, FromKey(m));
    KeyHasAt(Get(m.headers, "F"));
  }

  /** It is handed over if and only if the connection last assigned that key is open, and then to that connection. */
  lemma CallReachesKeyed(env: Env, config: Config, accounts: Accounts, call: SipMessage, tag: nat, svc: Endpoint,
                         nonce: string, now: Time, f: SipMessage, net: Net, events: seq<Event>, h: Handle, works: bool)
    requires env.resolve("") == None && Unsent(call) && !call.command.Response? && !call.command.Invalid?
    requires var s := MessageStep(env, config, accounts, call, tag, svc, nonce, now);
             f in s.replies && f.command == call.command && Keyed(s.accounts)
    requires CopyOverWs(env, config, accounts, call, now)
    requires net.Valid() && net.linked && net.index == After(events) && Disciplined(events)
    requires MostRecent(events, ToKey(call), h)
    ensures var sent := FromSocket(net, f, works);
            (sent.attempts != [] <==> IsOpen(events, h)) &&
            forall a :: a in sent.attempts ==> a.ToConnection? && a.state.handle == Some(h)
  {
    hide MessageStep, FromSocket, Disciplined, MostRecent, IsOpen, After, Keyed, CopyOverWs, ToKey;
    CopyIsKeyed(env, config, accounts, call, tag, svc, nonce, now, f);
    KeyedDelivery(net, events, f, h, works);
  }

  lemma KeyHasAt(line: string)
    ensures KeyOf(line) != ""
  {
    hide Id, AddressText.Domain;
    assert |KeyOf(line)| >= 1;
  }

  // ---------------------------------------------------------------- the listeners at work

  /** Which of the responses the transports take. */
  function Taken(n: nat, accepts: nat -> bool): (r: seq<bool>)
    ensures |r| == n
  {
    seq(n, accepts)
  }

  /** What the dialog makes of a message from the listener that received it. */
  ghost function StepOf(dialog: SipDialog, m: SipMessage, nonce: string, now: Time): Step
    reads dialog, dialog.registry, dialog.registry.list.Values
  {
    MessageStep(dialog.env, dialog.Configuration(), dialog.registry.View(), m, dialog.tag, m.address, nonce, now)
  }

  method Answer(dialog: SipDialog, m0: SipMessage, nonce: string, now: Time)
    returns (m: SipMessage, replies: seq<SipMessage>, threw: bool)
    requires dialog.registry.Valid()
    modifies dialog`tag, dialog.registry.list.Values
    ensures Step(dialog.registry.View(), dialog.tag, m, replies, threw) == old(StepOf(dialog, m0, nonce, now))
  {
    hide MessageStep;
    m, replies, threw := dialog.MkResponse(m0, [], m0.address, nonce, now);
    assert replies == old(StepOf(dialog, m0, nonce, now)).replies;
  }

  /** doProcessMessage: one message from a socket; `accepts` says which responses the transports take. */
  method DoProcessMessage(sip: SipServer, dialog: SipDialog, m0: SipMessage, nonce: string, now: Time,
                          accepts: nat -> bool)
    returns (attempts: seq<Attempt>, threw: bool)
    requires sip.Valid() && dialog.registry.Valid()
    modifies dialog`tag, dialog.registry.list.Values, if sip.next == null then {} else {sip.next}
    ensures sip.Valid() && old(sip.Network(NextMaps(sip))).Valid()
    ensures m0.command.Invalid? ==> attempts == [] && !threw && dialog.registry.View() == old(dialog.registry.View())
    ensures !m0.command.Invalid? ==>
      var s := old(StepOf(dialog, m0, nonce, now));
      dialog.registry.View() == s.accounts && dialog.tag == s.tag && threw == s.threw &&
      (!threw ==> Outbox(NextMaps(sip), attempts)
                  == SendAll(old(sip.Network(NextMaps(sip))), s.replies, Taken(|s.replies|, accepts))) &&
      (threw ==> attempts == [] && NextMaps(sip) == old(NextMaps(sip)))
  {
    hide MessageStep, SendAll, StepOf, Taken;
    attempts, threw := [], false;
    if m0.command.Invalid? {
      return;
    }
    var m, response;
    m, response, threw := Answer(dialog, m0, nonce, now);
    if !threw {
      attempts := SendResponses(sip, response, Taken(|response|, accepts));
    }
  }

  /** The dialog's answers to a message, sent off through the response loop. */
  method SendReplies(ws: WSListener, sip: SipServer?, dialog: SipDialog, h: Handle, req: SipMessage, nonce: string,
                 now: Time, accepts: nat -> bool)
    returns (attempts: seq<Attempt>, ok: bool, threw: bool)
    requires Linked(ws, sip) && dialog.registry.Valid()
    modifies dialog`tag, dialog.registry.list.Values, ws
    ensures old(Whole(ws, sip)).Valid()
    ensures var s := old(StepOf(dialog, req, nonce, now));
      dialog.registry.View() == s.accounts && dialog.tag == s.tag && threw == s.threw &&
      (!threw ==> Progress(ws.Maps(), attempts, ok)
                  == RespondAll(old(Whole(ws, sip)), h, s.m, dialog.registry.domain, s.replies,
                    Taken(|s.replies|, accepts))) &&
      (threw ==> attempts == [] && ws.Maps() == old(ws.Maps()))
  {
    hide MessageStep, RespondAll, StepOf, Taken;
    attempts, ok := [], false;
    var m, responses;
    m, responses, threw := Answer(dialog, req, nonce, now);
    if !threw {
      attempts, ok := ProcessResponses(ws, sip, h, m, dialog.registry.domain, responses, Taken(|responses|, accepts));
    }
  }

  /** processMessage: one message from a WebSocket connection.  The message takes the key of its connection,
      which is looked up with operator[]. */
  method ProcessMessage(ws: WSListener, sip: SipServer?, dialog: SipDialog, h: Handle, m0: SipMessage, nonce: string,
                        now: Time, accepts: nat -> bool)
    returns (attempts: seq<Attempt>, ok: bool, threw: bool)
    requires Linked(ws, sip) && dialog.registry.Valid()
    modifies dialog`tag, dialog.registry.list.Values, ws
    ensures old(Whole(ws, sip)).Valid()
    ensures m0.command.Invalid? ==> attempts == [] && !ok && dialog.registry.View() == old(dialog.registry.View())
    ensures !m0.command.Invalid? ==>
      var x := old(ws.Maps()).Peeked(h);
      var s := old(StepOf(dialog, m0.(proto := Ws, key := ws.Maps().Peeked(h).connections[h].key), nonce, now));
      dialog.registry.View() == s.accounts && dialog.tag == s.tag && threw == s.threw &&
      (!threw ==> Progress(ws.Maps(), attempts, ok)
                  == RespondAll(old(Whole(ws, sip)).(index := x), h, s.m, dialog.registry.domain, s.replies,
                                Taken(|s.replies|, accepts))) &&
      (threw ==> attempts == [] && ws.Maps() == x)
  {
    hide MessageStep, RespondAll, StepOf, Taken;
    attempts, ok, threw := [], false, false;
    var state := ws.At(h);
    if !m0.command.Invalid? {
      attempts, ok, threw := SendReplies(ws, sip, dialog, h, m0.(proto := Ws, key := state.key), nonce, now, accepts);
    }
  }
}
