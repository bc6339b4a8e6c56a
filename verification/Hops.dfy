/** Relayed responses, and chains of hops (SipDialog.cpp; sections 16.3, 16.6 and 16.7 of RFC 3261). */
module Hops {
  import opened Wrappers
  import opened Text
  import opened Locations
  import opened AddressText
  import opened AccountMap
  import opened Messages
  import opened Proxy
  import opened Registrar
  import opened Routing
  import opened RegistrarRuns

  /** A response can travel on: From's entry has a live location that is not where the response came from,
      whose host resolves and whose port is not the server's own. */
  predicate CanRelay(env: Env, accounts: Accounts, m: SipMessage, now: int) {
    && LiveAt(accounts, FromKey(m), now)
    && var l := LiveLocation(accounts, FromKey(m), now);
       !CameFrom(m, l) && Resolves(env, l.host) && l.port % 0x1_0000 != 5060
  }

  /** The response came over UDP or TCP from that very place: host, up to case, and port. */
  predicate CameFrom(m: SipMessage, l: SipLocation) {
    l.proto in {Udp, Tcp} && Lower(l.host) == Lower(m.address.ip) && l.port == m.address.port
  }

  /** The response as it is sent on: all of it but the hop count and one parameter more in Via, which names the host
      the location has. */
  ghost predicate RelayedCopy(env: Env, accounts: Accounts, m: SipMessage, now: int, f: SipMessage) {
    && f.command.Response? && f.code == m.code && f.body == m.body && f.sentCode == m.sentCode && f.conn == m.conn
    && f.commandParam == m.commandParam && f.keyFrom == m.keyFrom
    && (forall n :: n !in {"Max-Forwards", "V"} ==> Get(f.headers, n) == Get(m.headers, n))
    && LiveAt(accounts, FromKey(m), now)
    && Get(f.headers, "V") == Get(m.headers, "V") + ";received=" + LiveLocation(accounts, FromKey(m), now).host
    && SentTo(env, f, LiveLocation(accounts, FromKey(m), now))
    && Get(f.headers, "Max-Forwards") == Dec(ToInt32(m.MaxForwards() - 1))
    && f.key == accounts[FromKey(m)].Key()
  }

  /** A response yields at most one message, and exactly when it can be relayed; the relay goes to the first
      live location of From's entry, both read off the registry before the response.  Neither path tests whether
      From is registered: it relies on the placeholder's empty host not resolving. */
  lemma ResponseRouting(env: Env, config: Config, accounts: Accounts, m: SipMessage, tag: nat,
                        svc: Endpoint, nonce: string, now: Time)
    requires env.resolve("") == None
    requires m.command.Response? && m.MaxForwards() != 0
    ensures var s := MessageStep(env, config, accounts, m, tag, svc, nonce, now);
            |s.replies| <= 1 && (s.replies != [] <==> CanRelay(env, accounts, m, now)) &&
            forall f :: f in s.replies ==> RelayedCopy(env, accounts, m, now, f)
  {
    hide CanRelay, RelayedCopy, ResponseStep, KeyOf, Dec, ParseInt;
    var m1 := m.WithMaxForwards(ToInt32(m.MaxForwards() - 1));
    CountedDown(m, m1);
    assert FromKey(m1) == FromKey(m);
    if FromKey(m) in accounts {
      RelayFrom(env, accounts, m, m1, tag, now);
    } else {
      UnknownSender(env, accounts, m, m1, tag, now);
    }
  }

  lemma UnknownSender(env: Env, accounts: Accounts, m: SipMessage, m1: SipMessage, tag: nat, now: Time)
    requires FromKey(m) !in accounts && FromKey(m1) == FromKey(m)
    ensures ResponseStep(env, accounts, m1, tag, now).replies == [] && !CanRelay(env, accounts, m, now)
  {
  }

  lemma RelayFrom(env: Env, accounts: Accounts, m: SipMessage, m1: SipMessage, tag: nat, now: Time)
    requires env.resolve("") == None && FromKey(m) in accounts && FromKey(m1) == FromKey(m) && m.command.Response?
    requires m1 == m.WithMaxForwards(ToInt32(m.MaxForwards() - 1))
    ensures var s := ResponseStep(env, accounts, m1, tag, now);
            |s.replies| <= 1 && (s.replies != [] <==> CanRelay(env, accounts, m, now)) &&
            forall f :: f in s.replies ==> RelayedCopy(env, accounts, m, now, f)
  {
    hide LocatedAt, LiveAt, KeyOf, Dec, ParseInt, LiveLocation, Cyclic, ResponseTouches, SentTo, FirstIsLive, SameView;
    var from, located := FromKey(m), LocatedAt(accounts, FromKey(m), now);
    var l := located[from].locations[0];
    LocatedFirst(accounts, from, now);
    LookupKeepsView(accounts, from, now);
    SameLiveLocation(located, accounts, from, now);
    RelayHeaders(m, m1);
    CountedDown(m, m1);
    SamePlace(l, m.address);
    var t := ResponseTouches(m1.Touched("F"));
    if env.resolve(l.host).Some? {
      var ip := env.resolve(l.host).value;
      RelayShape(env, t, l, accounts[from].Key(), ip);
    }
  }

  lemma RelayShape(env: Env, t: SipMessage, l: SipLocation, key: string, ip: string)
    requires env.resolve(l.host) == Some(ip)
    ensures var f := t.(proto := l.proto, key := key, address := Endpoint(ip, l.port % 0x1_0000))
                     .AddParameter("V", "received", l.host);
            SentTo(env, f, l) && (forall n :: n != "V" ==> Get(f.headers, n) == Get(t.headers, n))
            && Get(f.headers, "V") == Get(t.headers, "V") + ";received=" + l.host
            && f.command == t.command && f.code == t.code && f.body == t.body && f.sentCode == t.sentCode
               && f.conn == t.conn && f.key == key && f.commandParam == t.commandParam && f.keyFrom == t.keyFrom
  {
    assert ";" + "received" + "=" == ";received=";
    HeaderNamesDiffer();
  }

  lemma RelayHeaders(m: SipMessage, m1: SipMessage)
    requires m1 == m.WithMaxForwards(ToInt32(m.MaxForwards() - 1))
    ensures var t := ResponseTouches(m1.Touched("F"));
            (forall n :: Get(t.headers, n) == Get(m1.headers, n))
            && (forall n :: n != "Max-Forwards" ==> Get(t.headers, n) == Get(m.headers, n))
            && t.code == m.code && t.body == m.body && t.command == m.command
            && t.sentCode == m.sentCode && t.conn == m.conn && t.commandParam == m.commandParam
            && t.keyFrom == m.keyFrom
  {
    hide ParseInt, Dec;
  }

  /** The loop test of the source is for the place the response came from. */
  lemma SamePlace(l: SipLocation, sender: Endpoint)
    ensures Cyclic(l, sender) <==> l.proto in {Udp, Tcp} && Lower(l.host) == Lower(sender.ip) && l.port == sender.port
  {
    SameUpToCase(l.host, sender.ip);
  }

  /** A response for a user who is live at a place that resolves, on a port other than 5060, is held back if and only
      if it came from that very place; from any other port of the same host it is relayed. */
  lemma HeldBackFromThere(env: Env, config: Config, accounts: Accounts, m: SipMessage, tag: nat,
                          svc: Endpoint, nonce: string, now: Time)
    requires env.resolve("") == None && m.command.Response? && m.MaxForwards() != 0
    requires LiveAt(accounts, FromKey(m), now)
    requires var l := LiveLocation(accounts, FromKey(m), now); env.resolve(l.host).Some? && l.port % 0x1_0000 != 5060
    ensures var l := LiveLocation(accounts, FromKey(m), now);
            MessageStep(env, config, accounts, m, tag, svc, nonce, now).replies == [] <==>
            (l.proto == Udp || l.proto == Tcp) && Lower(l.host) == Lower(m.address.ip) && l.port == m.address.port
  {
    hide MessageStep, RelayedCopy, LiveAt, LiveLocation, KeyOf, ParseInt;
    ResponseRouting(env, config, accounts, m, tag, svc, nonce, now);
  }

  // ---------------------------------------------------------------- chains

  /** A server a message passes: its registry and everything else the step depends on. */
  datatype Node = Node(env: Env, config: Config, accounts: Accounts, tag: nat, svc: Endpoint, nonce: string,
    now: Time) {
    function Handle(m: SipMessage): Step {
      MessageStep(env, config, accounts, m, tag, svc, nonce, now)
    }
  }

  /** What has to come through to the next server: the method, the hop count and To.  Address, transport and the
      sender's notes do not travel at all; the parser ends every line of the body anew, and trims and renames the
      headers, of which any others may differ. */
  predicate Arrives(sent: SipMessage, received: SipMessage) {
    && sent.command == received.command
    && Get(sent.headers, "Max-Forwards") == Get(received.headers, "Max-Forwards")
    && Get(sent.headers, "T") == Get(received.headers, "T")
  }

  ghost predicate HopAt(ms: seq<SipMessage>, nodes: seq<Node>, i: nat)
    requires i < |nodes| && i + 1 < |ms|
  {
    && nodes[i].env.resolve("") == None && ms[i + 1].command == ms[i].command
    && exists f :: f in nodes[i].Handle(ms[i]).replies && Arrives(f, ms[i + 1])
  }

  /** Each message is one that the server before sent on, as it arrives at the next server. */
  ghost predicate Chain(ms: seq<SipMessage>, nodes: seq<Node>) {
    |ms| == |nodes| + 1 && forall i :: 0 <= i < |nodes| ==> HopAt(ms, nodes, i)
  }

  lemma HopCountsDown(n: Node, m: SipMessage, f: SipMessage)
    requires n.env.resolve("") == None && f in n.Handle(m).replies && f.command == m.command
    ensures m.MaxForwards() != 0 && f.MaxForwards() == ToInt32(m.MaxForwards() - 1)
  {
    hide MessageStep, RequestOutcome, RelayedCopy, CanRelay, ParseInt, Dec;
    if m.MaxForwards() == 0 {
      Dropped(n.env, n.config, n.accounts, m, n.tag, n.svc, n.nonce, n.now);
      assert false;
    }
    var s := n.Handle(m);
    if m.command.Response? {
      ResponseRouting(n.env, n.config, n.accounts, m, n.tag, n.svc, n.nonce, n.now);
      RelayedHops(n, m, f);
    } else {
      RequestRouting(n.env, n.config, n.accounts, m, n.tag, n.svc, n.nonce, n.now);
      ForwardedHops(n, s.accounts, s.replies, m, f);
    }
    DecRoundTrip(ToInt32(m.MaxForwards() - 1), 1);
  }

  lemma RelayedHops(n: Node, m: SipMessage, f: SipMessage)
    requires RelayedCopy(n.env, n.accounts, m, n.now, f)
    ensures Get(f.headers, "Max-Forwards") == Dec(ToInt32(m.MaxForwards() - 1))
  {
    hide Dec, ParseInt, KeyOf, LiveAt;
  }

  lemma ForwardedHops(n: Node, after: Accounts, replies: seq<SipMessage>, m: SipMessage, f: SipMessage)
    requires RequestOutcome(n.env, n.config, n.accounts, after, m, n.now, replies)
    requires f in replies && f.command == m.command && !m.command.Response?
    ensures ForwardedCopy(n.env, n.config, n.accounts, after, m, n.now, f)
            && Get(f.headers, "Max-Forwards") == Dec(ToInt32(m.MaxForwards() - 1))
  {
    hide Dec, ParseInt, KeyOf, LiveNext, NextLocation, CanForward;
  }

  /** A forwarded request still resolves to the same callee: the rewritten To names the same key. */
  lemma ForwardedToResolves(n: Node, m: SipMessage, f: SipMessage)
    requires KeepsKeys(n, m) && n.env.resolve("") == None
    requires f in n.Handle(m).replies && f.command == m.command && !m.command.Response?
    ensures ToKey(f) == ToKey(m)
  {
    hide MessageStep, RequestOutcome, UpdateGranted, ParseInt, Dec, KeyOf;
    HopCountsDown(n, m, f);
    var s := n.Handle(m);
    KeysStayRight(n.env, n.config, n.accounts, m, n.tag, n.svc, n.nonce, n.now);
    RequestRouting(n.env, n.config, n.accounts, m, n.tag, n.svc, n.nonce, n.now);
    ForwardedHops(n, s.accounts, s.replies, m, f);
    ResolutionIsStable(Get(m.headers, "T"), s.accounts[ToKey(m)]);
  }

  /** The server has right keys, and the message does not rebind an entry of another domain at it. */
  predicate KeepsKeys(n: Node, m: SipMessage) {
    Keyed(n.accounts) && !MovesDomain(n.env, n.config, n.accounts, m, n.now)
  }

  ghost predicate KeyedThroughout(ms: seq<SipMessage>, nodes: seq<Node>)
    requires |ms| == |nodes| + 1
  {
    forall i :: 0 <= i < |nodes| ==> KeepsKeys(nodes[i], ms[i])
  }

  lemma ChainPrefix(ms: seq<SipMessage>, nodes: seq<Node>)
    requires Chain(ms, nodes) && nodes != []
    ensures Chain(ms[..|nodes|], nodes[..|nodes| - 1])
    ensures KeyedThroughout(ms, nodes) ==> KeyedThroughout(ms[..|nodes|], nodes[..|nodes| - 1])
  {
    hide MessageStep, KeepsKeys;
    var ms', nodes' := ms[..|nodes|], nodes[..|nodes| - 1];
    forall i | 0 <= i < |nodes'| ensures HopAt(ms', nodes', i) {
      assert HopAt(ms, nodes, i);
    }
  }

  /** Along any chain of servers the hop count falls by one a hop, a message that starts with n >= 0 makes at
      most n hops, and a request keeps resolving to the callee it started with through servers with right keys
      that it does not make a server rebind across domains. */
  lemma {:induction false} HopBound(ms: seq<SipMessage>, nodes: seq<Node>)
    requires |ms| == |nodes| + 1 && Chain(ms, nodes) && 0 <= ms[0].MaxForwards()
    ensures |nodes| <= ms[0].MaxForwards() && ms[|nodes|].MaxForwards() == ms[0].MaxForwards() - |nodes|
    ensures !ms[0].command.Response? && KeyedThroughout(ms, nodes) ==> ToKey(ms[|nodes|]) == ToKey(ms[0])
    decreases |nodes|
  {
    hide MessageStep, KeepsKeys, ParseInt, KeyOf, Chain;
    if nodes != [] {
      var k := |nodes| - 1;
      ChainPrefix(ms, nodes);
      HopBound(ms[..k + 1], nodes[..k]);
      LastHop(ms, nodes);
      var f :| f in nodes[k].Handle(ms[k]).replies && Arrives(f, ms[k + 1]);
      HopCountsDown(nodes[k], ms[k], f);
      ArrivesAlike(f, ms[k + 1]);
      SameCommand(ms, nodes, k);
      if !ms[0].command.Response? && KeyedThroughout(ms, nodes) {
        ForwardedToResolves(nodes[k], ms[k], f);
      }
    }
  }

  lemma LastHop(ms: seq<SipMessage>, nodes: seq<Node>)
    requires Chain(ms, nodes) && nodes != []
    ensures HopAt(ms, nodes, |nodes| - 1)
  {
  }

  lemma ArrivesAlike(sent: SipMessage, received: SipMessage)
    requires Arrives(sent, received)
    ensures received.MaxForwards() == sent.MaxForwards() && ToKey(received) == ToKey(sent)
            && received.command == sent.command
  {
    hide ParseInt, KeyOf;
  }

  /** Below zero every hop of any chain makes the counter smaller still, down to the smallest int. */
  lemma {:induction false} NegativeCountsFall(ms: seq<SipMessage>, nodes: seq<Node>)
    requires |ms| == |nodes| + 1 && Chain(ms, nodes) && ms[0].MaxForwards() < 0
             && |nodes| <= ms[0].MaxForwards() + INT_LIMIT
    ensures ms[|nodes|].MaxForwards() == ms[0].MaxForwards() - |nodes|
    decreases |nodes|
  {
    hide MessageStep, KeepsKeys, KeyedThroughout, ParseInt, KeyOf, Chain;
    if nodes != [] {
      var k := |nodes| - 1;
      ChainPrefix(ms, nodes);
      NegativeCountsFall(ms[..k + 1], nodes[..k]);
      LastHop(ms, nodes);
      var f :| f in nodes[k].Handle(ms[k]).replies && Arrives(f, ms[k + 1]);
      HopCountsDown(nodes[k], ms[k], f);
      ArrivesAlike(f, ms[k + 1]);
    }
  }

  lemma {:induction false} SameCommand(ms: seq<SipMessage>, nodes: seq<Node>, k: nat)
    requires Chain(ms, nodes) && k < |ms|
    ensures ms[k].command == ms[0].command
  {
    hide MessageStep;
    if k > 0 {
      SameCommand(ms, nodes, k - 1);
      assert HopAt(ms, nodes, k - 1);
    }
  }
}
