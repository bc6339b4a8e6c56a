/** How long a chain of servers a message can travel: the hop bound is reached, and only a count that starts at
    zero or above bounds anything (SipDialog.cpp; section 16.3 of RFC 3261). */
module Chains {
  import opened Wrappers
  import opened Text
  import opened Locations
  import opened AddressText
  import opened AccountMap
  import opened Messages
  import opened Proxy
  import opened Registrar
  import opened RegistrarRuns
  import opened Routing
  import opened Hops

  /** Whatever the count is, unless it is zero: a request that can be forwarded is, with the count one lower.
      The test of the source is for zero alone. */
  lemma ForwardedWhateverCount(n: Node, m: SipMessage)
    requires n.env.resolve("") == None && !m.command.Response? && m.MaxForwards() != 0
    requires CanForward(n.env, n.config, n.accounts, m, n.now)
    ensures exists f :: f in n.Handle(m).replies && f.command == m.command
                        && f.MaxForwards() == ToInt32(m.MaxForwards() - 1)
                        && ToKey(m) in n.Handle(m).accounts
                        && Get(f.headers, "T") == n.Handle(m).accounts[ToKey(m)].TaggedUri()
  {
    hide MessageStep, CanForward, ForwardedCopy, ParseInt, Dec, KeyOf;
    RequestRouting(n.env, n.config, n.accounts, m, n.tag, n.svc, n.nonce, n.now);
    var replies := n.Handle(m).replies;
    var f := replies[|replies| - 1];
    CopyFields(n, m, f);
    HopCountsDown(n, m, f);
  }

  lemma CopyFields(n: Node, m: SipMessage, f: SipMessage)
    requires ForwardedCopy(n.env, n.config, n.accounts, n.Handle(m).accounts, m, n.now, f)
    ensures f.command == m.command && ToKey(m) in n.Handle(m).accounts
    ensures Get(f.headers, "T") == n.Handle(m).accounts[ToKey(m)].TaggedUri()
  {
    hide MessageStep, ParseInt, Dec, KeyOf, LiveNext, NextLocation;
  }

  /** The same for a response that can be relayed. */
  lemma RelayedWhateverCount(n: Node, m: SipMessage)
    requires n.env.resolve("") == None && m.command.Response? && m.MaxForwards() != 0
    requires CanRelay(n.env, n.accounts, m, n.now)
    ensures exists f :: f in n.Handle(m).replies && f.command == m.command
                        && f.MaxForwards() == ToInt32(m.MaxForwards() - 1)
  {
    hide MessageStep, CanRelay, RelayedCopy, ParseInt, Dec;
    ResponseRouting(n.env, n.config, n.accounts, m, n.tag, n.svc, n.nonce, n.now);
    var f := n.Handle(m).replies[0];
    RelayIsResponse(n, m, f);
    HopCountsDown(n, m, f);
  }

  lemma RelayIsResponse(n: Node, m: SipMessage, f: SipMessage)
    requires RelayedCopy(n.env, n.accounts, m, n.now, f)
    ensures f.command.Response?
  {
    hide MessageStep, ParseInt, Dec, KeyOf, LiveAt;
  }

  // ---------------------------------------------------------------- which messages travel

  predicate IsCall(c: Command) {
    c.Ack? || c.Cancel? || c.Invite? || c.Bye? || c.Message?
  }

  /** Responses, calls, and OPTIONS between different user names can be sent on; nothing else ever is. */
  predicate Travels(m: SipMessage) {
    m.command.Response? || IsCall(m.command)
    || (m.command.Options? && Id(Get(m.headers, "F")) != Id(Get(m.headers, "T")))
  }

  lemma OthersStay(n: Node, m: SipMessage, f: SipMessage)
    requires n.env.resolve("") == None && Keyed(n.accounts) && !Travels(m) && f in n.Handle(m).replies
    ensures f.command != m.command
  {
    hide MessageStep, Keyed, Answers, ForwardedCopy, ParseInt, Dec, KeyOf, CallerAdmitted, LiveNext;
    if m.MaxForwards() == 0 {
      Dropped(n.env, n.config, n.accounts, m, n.tag, n.svc, n.nonce, n.now);
    } else {
      RequestRouting(n.env, n.config, n.accounts, m, n.tag, n.svc, n.nonce, n.now);
      if !f.command.Response? {
        assert CanForward(n.env, n.config, n.accounts, m, n.now);
        NeverGoesOn(n.accounts, m);
      }
    }
  }

  lemma NeverGoesOn(accounts: Accounts, m: SipMessage)
    requires Keyed(accounts) && !Travels(m)
    ensures !GoesOn(accounts, m)
  {
    hide Id, AddressText.Domain;
    if m.command.Options? && FromKey(m) in accounts && ToKey(m) in accounts {
      ResolutionIsStable(Get(m.headers, "F"), accounts[FromKey(m)]);
      ResolutionIsStable(Get(m.headers, "T"), accounts[ToKey(m)]);
    }
  }

  // ---------------------------------------------------------------- a server that sends on

  const ANYWHERE := SipLocation(Ws, SipPrefix, "10.0.0.1", 5070, "", "", "", 3600, 0)

  /** An entry of the user a header text names, reachable. */
  function Entry(line: string): Address {
    Address(FromRegistry, [ANYWHERE], "", "", "", Id(line), AddressText.Domain(line), 0, "")
  }

  /** A server at which the two users of a message are registered. */
  function Server(m: SipMessage): Node {
    Node(Env(host => if host == "" then None else Some(host), text => seq(16, i => 0)), Config("", "", ""),
         map[FromKey(m) := Entry(Get(m.headers, "F"))][ToKey(m) := Entry(Get(m.headers, "T"))],
         0, Endpoint("", 0), "", 1)
  }

  lemma ServerIsLive(m: SipMessage)
    ensures var accounts := Server(m).accounts;
            LiveAt(accounts, FromKey(m), 1) && LiveAt(accounts, ToKey(m), 1)
            && LiveLocation(accounts, FromKey(m), 1) == ANYWHERE && LiveLocation(accounts, ToKey(m), 1) == ANYWHERE
  {
    hide KeyOf, Id, AddressText.Domain;
  }

  lemma ServerIsKeyed(m: SipMessage)
    ensures var accounts := Server(m).accounts;
            Keyed(accounts)
            && accounts[FromKey(m)].id == Id(Get(m.headers, "F")) && accounts[ToKey(m)].id == Id(Get(m.headers, "T"))
  {
    hide Id, AddressText.Domain;
    var from, to := Get(m.headers, "F"), Get(m.headers, "T");
    assert Entry(from).Key() == FromKey(m) && Entry(to).Key() == ToKey(m);
    if FromKey(m) == ToKey(m) {
      ResolutionIsStable(from, Entry(to));
    }
  }

  lemma ServerCanForward(m: SipMessage)
    requires Travels(m) && !m.command.Response?
    ensures var n := Server(m);
            n.env.resolve("") == None && Keyed(n.accounts) && CanForward(n.env, n.config, n.accounts, m, n.now)
  {
    hide KeyOf, Id, Keyed, LiveAt, Granted, ParseInt, Entry, LiveLocation, Clean;
    var n := Server(m);
    ServerIsLive(m);
    ServerIsKeyed(m);
    assert !UpdateGranted(n.env, n.config, n.accounts, m, n.now);
  }

  lemma ServerCanRelay(m: SipMessage)
    ensures var n := Server(m);
            n.env.resolve("") == None && Keyed(n.accounts) && CanRelay(n.env, n.accounts, m, n.now)
  {
    hide KeyOf, LiveAt, Entry, LiveLocation, Keyed, Id;
    ServerIsLive(m);
    ServerIsKeyed(m);
  }

  /** Whatever travels is sent on by its server, and what arrives behind it travels as well. */
  lemma OneHop(m: SipMessage) returns (next: SipMessage)
    requires Travels(m) && m.MaxForwards() != 0
    ensures Travels(next) && next.command == m.command && next.MaxForwards() == ToInt32(m.MaxForwards() - 1)
    ensures Server(m).env.resolve("") == None && Keyed(Server(m).accounts)
            && exists f :: f in Server(m).Handle(m).replies && Arrives(f, next)
  {
    hide MessageStep, ParseInt, Server, CanForward, CanRelay, Travels, KeyOf, Arrives, LiveAt, LiveLocation, Keyed;
    var n := Server(m);
    ResponsesTravel(m);
    if m.command.Response? {
      ServerCanRelay(m);
      RelayedWhateverCount(n, m);
      var f :| f in n.Handle(m).replies && f.command == m.command && f.MaxForwards() == ToInt32(m.MaxForwards() - 1);
      next := f;
      ResponsesTravel(f);
      assert Arrives(f, f) by { ArrivesItself(f); }
    } else {
      ServerCanForward(m);
      ForwardedWhateverCount(n, m);
      var f :| f in n.Handle(m).replies && f.command == m.command && f.MaxForwards() == ToInt32(m.MaxForwards() - 1)
               && ToKey(m) in n.Handle(m).accounts && Get(f.headers, "T") == n.Handle(m).accounts[ToKey(m)].TaggedUri();
      next := f.WithHeader("F", Get(m.headers, "F"));
      ServerNamesTo(m, n.Handle(m).accounts);
      UsersStay(m, f, n.Handle(m).accounts[ToKey(m)]);
    }
  }

  lemma ResponsesTravel(m: SipMessage)
    ensures m.command.Response? ==> Travels(m)
  {
  }

  lemma ArrivesItself(f: SipMessage)
    ensures Arrives(f, f)
  {
  }

  /** The server keeps To's entry under its own key. */
  lemma ServerNamesTo(m: SipMessage, after: Accounts)
    requires Travels(m) && !m.command.Response? && after == Server(m).Handle(m).accounts && ToKey(m) in after
    ensures after[ToKey(m)].Key() == ToKey(m)
  {
    hide MessageStep, Granted, ParseInt, LiveAt, LiveLocation, KeyOf, Id, Keyed, Entry;
    var n := Server(m);
    ServerIsLive(m);
    ServerIsKeyed(m);
    assert !MovesDomain(n.env, n.config, n.accounts, m, n.now);
    KeysStayRight(n.env, n.config, n.accounts, m, n.tag, n.svc, n.nonce, n.now);
    OwnKey(after, ToKey(m));
  }

  lemma UsersStay(m: SipMessage, f: SipMessage, e: Address)
    requires Travels(m) && !m.command.Response? && f.command == m.command
    requires e.Key() == ToKey(m) && Get(f.headers, "T") == e.TaggedUri()
    ensures var next := f.WithHeader("F", Get(m.headers, "F"));
            Travels(next) && Arrives(f, next) && next.MaxForwards() == f.MaxForwards()
  {
    hide ParseInt, KeyOf, Id, AddressText.Domain;
    HeaderNames();
    assert "F"[0] == 'F' && "T"[0] == 'T' && |"Max-Forwards"| == 12;
    ResolutionIsStable(Get(m.headers, "T"), e);
    ResolutionIsStable(Get(f.headers, "T"), e);
  }

  // ---------------------------------------------------------------- chains that exist

  /** All the servers have right keys, as those that only serve one domain always do. */
  predicate RightKeys(nodes: seq<Node>) {
    forall i :: 0 <= i < |nodes| ==> Keyed(nodes[i].accounts)
  }

  /** What travels makes as many hops as its count allows: any number up to a count that is not negative, and,
      from a negative count, as many as it takes to reach the smallest int. */
  lemma {:induction false} ChainExists(m: SipMessage, k: nat) returns (ms: seq<SipMessage>, nodes: seq<Node>)
    requires Travels(m)
    requires k <= if m.MaxForwards() >= 0 then m.MaxForwards() else m.MaxForwards() + INT_LIMIT
    ensures |nodes| == k && |ms| == k + 1 && ms[0] == m && Chain(ms, nodes) && RightKeys(nodes)
    decreases k
  {
    hide MessageStep, ParseInt, Server, Travels, Arrives, Keyed;
    if k == 0 {
      ms, nodes := [m], [];
    } else {
      var n := Server(m);
      var next := OneHop(m);
      var more, rest := ChainExists(next, k - 1);
      ms, nodes := [m] + more, [n] + rest;
      Prepend(m, n, more, rest);
    }
  }

  lemma Prepend(m: SipMessage, n: Node, ms: seq<SipMessage>, nodes: seq<Node>)
    requires |ms| == |nodes| + 1 && Chain(ms, nodes) && ms[0].command == m.command
    requires n.env.resolve("") == None && exists f :: f in n.Handle(m).replies && Arrives(f, ms[0])
    ensures Chain([m] + ms, [n] + nodes)
  {
    hide MessageStep, Arrives;
    var ms', nodes' := [m] + ms, [n] + nodes;
    forall i | 0 <= i < |nodes'| ensures HopAt(ms', nodes', i) {
      if i == 0 {
        assert ms'[1] == ms[0];
      } else {
        assert HopAt(ms, nodes, i - 1);
      }
    }
  }

  ghost predicate HopsAtMost(m: SipMessage, n: int) {
    forall ms: seq<SipMessage>, nodes: seq<Node> {:trigger Chain(ms, nodes)} ::
      |ms| == |nodes| + 1 && Chain(ms, nodes) && RightKeys(nodes) && ms[0] == m ==> |nodes| <= n
  }

  /** A number of hops below 2^31 bounds every chain of a message through servers with right keys if and only if the
      message does not travel at all, or its count is between zero and that number. */
  lemma CountBoundsHops(m: SipMessage, n: nat)
    requires m.MaxForwards() < 0 ==> n < m.MaxForwards() + INT_LIMIT
    ensures HopsAtMost(m, n) <==> !Travels(m) || 0 <= m.MaxForwards() <= n
  {
    hide Chain, RightKeys, ParseInt, Travels;
    if !Travels(m) {
      forall ms: seq<SipMessage>, nodes: seq<Node>
        | |ms| == |nodes| + 1 && Chain(ms, nodes) && RightKeys(nodes) && ms[0] == m
        ensures |nodes| <= n
      {
        NoHops(ms, nodes);
      }
    } else if 0 <= m.MaxForwards() <= n {
      forall ms: seq<SipMessage>, nodes: seq<Node> | |ms| == |nodes| + 1 && Chain(ms, nodes) && ms[0] == m
        ensures |nodes| <= n
      {
        HopBound(ms, nodes);
      }
    } else {
      var ms, nodes := ChainExists(m, n + 1);
      assert Chain(ms, nodes);
    }
  }

  lemma NoHops(ms: seq<SipMessage>, nodes: seq<Node>)
    requires |ms| == |nodes| + 1 && Chain(ms, nodes) && RightKeys(nodes) && !Travels(ms[0])
    ensures nodes == []
  {
    hide MessageStep, Travels, Keyed;
    if nodes != [] {
      assert HopAt(ms, nodes, 0);
      var f :| f in nodes[0].Handle(ms[0]).replies && Arrives(f, ms[1]);
      OthersStay(nodes[0], ms[0], f);
      assert false;
    }
  }

  /** A negative count is never stopped: from any such count there is a chain of every length down to the smallest
      int, and along it the count only falls. */
  lemma NegativeCountsPass(m: SipMessage, k: nat)
    requires Travels(m) && m.MaxForwards() < 0 && k <= m.MaxForwards() + INT_LIMIT
    ensures exists ms: seq<SipMessage>, nodes: seq<Node> ::
      |nodes| == k && |ms| == k + 1 && ms[0] == m && Chain(ms, nodes) && RightKeys(nodes)
      && ms[k].MaxForwards() == m.MaxForwards() - k
  {
    hide Chain, RightKeys, ParseInt, Travels;
    var ms, nodes := ChainExists(m, k);
    NegativeCountsFall(ms, nodes);
  }
}
