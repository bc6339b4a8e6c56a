/** Registry and connections run together: what the registrations that came in over WebSocket connections decide about
    the calls that follow (WSListener.cpp, SipDialog.cpp). */
module Sessions {
  import opened Wrappers
  import opened Text
  import opened Locations
  import opened AddressText
  import opened AccountMap
  import opened Messages
  import opened DigestResponse
  import opened Proxy
  import opened Registrar
  import opened Routing
  import opened Answering
  import opened ConnectionIndex
  import opened Delivery
  import opened Listeners
  import opened Service
  import Runs = RegistrarRuns
  import Stores = Persistence

  /** What happens to the server: a connection opens or closes, a message comes in over one, or anything happens to the
      registry that has to do with none. */
  datatype Act =
    | Connects(h: Handle, tls: bool)
    | Leaves(h: Handle)
    | Speaks(h: Handle, m: SipMessage, tag: nat, nonce: string, accepts: nat -> bool, now: Time, env: Env,
      config: Config)
    | Meanwhile(e: Runs.Timed)

  datatype World = World(accounts: Accounts, net: Net)

  /** The message with the transport and the key of its connection. */
  function Incoming(x: Index, a: Act): SipMessage
    requires a.Speaks?
  {
    a.m.(proto := Ws, key := x.Peeked(a.h).connections[a.h].key)
  }

  function StepIn(w: World, a: Act): Step
    requires a.Speaks?
  {
    MessageStep(a.env, a.config, w.accounts, Incoming(w.net.index, a), a.tag, a.m.address, a.nonce, a.now)
  }

  /** The responses go out through the loop of processMessage. */
  function IndexAfterSpeaking(w: World, a: Act): Index
    requires w.net.Valid() && a.Speaks?
  {
    var x, s := w.net.index.Peeked(a.h), StepIn(w, a);
    if s.threw then x
    else RespondAll(w.net.(index := x), a.h, s.m, a.config.domain, s.replies, Taken(|s.replies|, a.accepts)).index
  }

  function Happens(w: World, a: Act): (r: World)
    requires w.net.Valid()
    ensures r.net.Valid() && r.net.linked == w.net.linked
  {
    match a
    case Connects(h, tls) => w.(net := w.net.(index := w.net.index.Opened(h, tls)))
    case Leaves(h) => w.(net := w.net.(index := w.net.index.Closed(h)))
    case Meanwhile(e) => w.(accounts := Runs.Happen(w.accounts, e))
    case Speaks(h, m, _, _, _, _, _, _) =>
      if m.command.Invalid? then w.(net := w.net.(index := w.net.index.Peeked(h)))
      else World(StepIn(w, a).accounts, w.net.(index := IndexAfterSpeaking(w, a)))
  }

  function Life(start: World, acts: seq<Act>): (w: World)
    requires start.net.Valid()
    ensures w.net.Valid() && w.net.linked == start.net.linked
  {
    if acts == [] then start else Happens(Life(start, acts[..|acts| - 1]), acts[|acts| - 1])
  }

  /** A REGISTER of the user, granted, over a connection. */
  predicate Registers(w: World, a: Act, key: string) {
    a.Speaks? && a.m.command.Register? && UpdateGranted(a.env, a.config, w.accounts, a.m, a.now) && FromKey(a.m) == key
  }

  predicate RegistersAny(w: World, a: Act) {
    a.Speaks? && Registers(w, a, FromKey(a.m))
  }

  /** The handler calls of the listener that an act amounts to. */
  function CallsOf(w: World, a: Act): seq<ConnectionIndex.Event> {
    match a
    case Connects(h, tls) => [Open(h, tls)]
    case Leaves(h) => [Close(h)]
    case Meanwhile(_) => []
    case Speaks(h, m, _, _, _, _, _, _) => [Peek(h)] + if RegistersAny(w, a) then [Assign(h, FromKey(m))] else []
  }

  function Calls(start: World, acts: seq<Act>): seq<ConnectionIndex.Event>
    requires start.net.Valid()
  {
    if acts == [] then []
    else Calls(start, acts[..|acts| - 1]) + CallsOf(Life(start, acts[..|acts| - 1]), acts[|acts| - 1])
  }

  // ---------------------------------------------------------------- what acts are like

  predicate OpenNow(acts: seq<Act>, h: Handle) {
    exists i :: 0 <= i < |acts| && acts[i].Connects? && acts[i].h == h && forall j :: i <= j < |acts| ==>
      acts[j] != Leaves(h)
  }

  /** Messages come over open connections, fresh from the parser; the registry keeps one domain; the empty name does
      not resolve. */
  ghost predicate WellFormed(before: seq<Act>, a: Act, domain: string) {
    match a
    case Connects(_, _) | Leaves(_) => true
    case Meanwhile(e) => Stores.OneDomain([e], domain)
    case Speaks(h, m, _, _, _, _, env, config) =>
      OpenNow(before, h) && Unsent(m) && config.domain == domain && env.resolve("") == None
  }

  ghost predicate AllWellFormed(acts: seq<Act>, domain: string) {
    forall i :: 0 <= i < |acts| ==> WellFormed(acts[..i], acts[i], domain)
  }

  ghost predicate Fresh(start: World, domain: string) {
    && start.net.Valid() && start.net.linked && start.net.index == Index(map[], map[])
    && Keyed(start.accounts) && Stores.InDomain(start.accounts, domain)
  }

  // ---------------------------------------------------------------- one message

  /** Without a confirmation among the responses the loop leaves the maps alone. */
  lemma {:induction false} LoopKeepsIndex(net: Net, h: Handle, request: SipMessage, domain: string,
                                          rs: seq<SipMessage>, works: seq<bool>)
    requires net.Valid() && net.linked && |works| == |rs| && h in net.index.connections
    requires forall i :: 0 <= i < |rs| ==> rs[i].sentCode == {} && !Confirms(request, rs[i])
    ensures RespondAll(net, h, request, domain, rs, works).index == net.index
    decreases |rs|
  {
    hide Respond, Confirms, Expected, Passes;
    if rs != [] {
      var n := |rs| - 1;
      LoopKeepsIndex(net, h, request, domain, rs[..n], works[..n]);
      OneResponse(net, h, request, domain, rs[n], works[n]);
    }
  }

  lemma SingleResponse(net: Net, h: Handle, request: SipMessage, domain: string, rs: seq<SipMessage>, works: seq<bool>)
    requires net.Valid() && net.linked && |works| == |rs| == 1 && h in net.index.connections && rs[0].sentCode == {}
    ensures RespondAll(net, h, request, domain, rs, works).index
            == if Confirms(request, rs[0]) then net.index.Assigned(h, UserKey(request, domain)) else net.index
  {
    hide Respond, Confirms, Expected, Passes, UserKey;
    assert rs[..0] == [] && works[..0] == [];
    OneResponse(net, h, request, domain, rs[0], works[0]);
  }

  lemma SameGrantIncoming(x: Index, w: World, a: Act)
    requires a.Speaks?
    ensures var req := Incoming(x, a);
            (UpdateGranted(a.env, a.config, w.accounts, req, a.now) <==>
              UpdateGranted(a.env, a.config, w.accounts, a.m, a.now))
            && FromKey(req) == FromKey(a.m) && req.command == a.m.command && req.MaxForwards() == a.m.MaxForwards()
            && Get(req.headers, "F") == Get(a.m.headers, "F")
  {
    hide KeyOf, ParseInt, Presented, IsAuthorized, LiveAt;
  }

  /** The maps after a message from an open connection: its sender's key assigned exactly when it was a REGISTER that
      was granted. */
  lemma SpeakingIndex(w: World, a: Act, domain: string)
    requires w.net.Valid() && w.net.linked && a.Speaks? && !a.m.command.Invalid? && a.h in w.net.index.connections
    requires Unsent(a.m) && a.config.domain == domain && a.env.resolve("") == None
    requires Keyed(w.accounts) && Stores.InDomain(w.accounts, domain)
    ensures IndexAfterSpeaking(w, a)
            == if RegistersAny(w, a) then w.net.index.Assigned(a.h, FromKey(a.m)) else w.net.index
  {
    hide MessageStep, RespondAll, UpdateGranted, FromKey, UserKey, ParseInt, Keyed, Stores.InDomain, Garbled, Taken;
    var x, req, s := w.net.index.Peeked(a.h), Incoming(w.net.index, a), StepIn(w, a);
    assert x == w.net.index;
    SameGrantIncoming(w.net.index, w, a);
    RepliesAreUnsent(a.env, a.config, w.accounts, req, a.tag, a.m.address, a.nonce, a.now);
    StepKeepsCommand(a.env, a.config, w.accounts, req, a.tag, a.m.address, a.nonce, a.now);
    assert forall i :: 0 <= i < |s.replies| ==> s.replies[i] in s.replies;
    if !a.m.command.Register? {
      if !s.threw {
        LoopKeepsIndex(w.net, a.h, s.m, domain, s.replies, Taken(|s.replies|, a.accepts));
      }
    } else if req.MaxForwards() == 0 {
      NoHopsNoReplies(w, a);
      LoopKeepsIndex(w.net, a.h, s.m, domain, s.replies, Taken(|s.replies|, a.accepts));
    } else if Garbled(req) {
      RegisterThrows(a.env, a.config, w.accounts, req, a.tag, a.m.address, a.nonce, a.now);
      GarbledIsNotGranted(a.env, a.config, w.accounts, req, a.now);
    } else {
      RegisterAnswer(a.env, a.config, w.accounts, req, a.tag, a.m.address, a.nonce, a.now);
      RegisterKeepsFrom(a.env, a.config, w.accounts, req, a.tag, a.m.address, a.nonce, a.now);
      SingleResponse(w.net, a.h, s.m, domain, s.replies, Taken(|s.replies|, a.accepts));
      ConfirmsWhen200(s.m, s.replies);
      if UpdateGranted(a.env, a.config, w.accounts, req, a.now) {
        GrantedKey(a.env, a.config, w.accounts, req, s.m, a.now);
      }
    }
  }

  lemma NoHopsNoReplies(w: World, a: Act)
    requires a.Speaks? && Incoming(w.net.index, a).MaxForwards() == 0
    ensures StepIn(w, a).replies == [] && !UpdateGranted(a.env, a.config, w.accounts, Incoming(w.net.index, a), a.now)
  {
    hide ParseInt, Granted, LiveAt, MessageStep;
    Dropped(a.env, a.config, w.accounts, Incoming(w.net.index, a), a.tag, a.m.address, a.nonce, a.now);
  }

  lemma ConfirmsWhen200(request: SipMessage, rs: seq<SipMessage>)
    requires |rs| == 1 && request.command.Register? && Status(rs).Some?
    ensures Confirms(request, rs[0]) <==> Status(rs) == Some(200)
  {
  }

  /** The key a granted REGISTER assigns is its sender's. */
  lemma GrantedKey(env: Env, config: Config, accounts: Accounts, m: SipMessage, after: SipMessage, now: int)
    requires UpdateGranted(env, config, accounts, m, now) && Keyed(accounts)
    requires Get(after.headers, "F") == Get(m.headers, "F")
    ensures UserKey(after, config.domain) == FromKey(m)
  {
    hide KeyOf, ParseInt, Presented, IsAuthorized, LiveAt, Keyed, Id;
    UserKeyIsFromKey(config, accounts, m);
  }

  // ---------------------------------------------------------------- runs

  /** The maps, the history of handler calls and the acts say the same. */
  ghost predicate Agree(w: World, calls: seq<ConnectionIndex.Event>, acts: seq<Act>, domain: string) {
    && w.net.Valid() && w.net.linked && w.net.index == After(calls) && Disciplined(calls)
    && (forall h: Handle :: IsOpen(calls, h) <==> OpenNow(acts, h))
    && Keyed(w.accounts) && Stores.InDomain(w.accounts, domain)
  }

  lemma OpenNowStep(acts: seq<Act>, a: Act, h: Handle)
    ensures OpenNow(acts + [a], h) <==> (a.Connects? && a.h == h) || (OpenNow(acts, h) && a != Leaves(h))
  {
    var all, n := acts + [a], |acts|;
    if OpenNow(all, h) {
      var i :| 0 <= i < |all| && all[i].Connects? && all[i].h == h && forall j :: i <= j < |all| ==>
        all[j] != Leaves(h);
      assert all[n] != Leaves(h);
      if i < n {
        assert acts[i] == all[i] && forall j :: i <= j < n ==> acts[j] == all[j];
      }
    }
    if a.Connects? && a.h == h {
      assert all[n] == a;
    } else if OpenNow(acts, h) && a != Leaves(h) {
      var i :| 0 <= i < n && acts[i].Connects? && acts[i].h == h && forall j :: i <= j < n ==> acts[j] != Leaves(h);
      assert all[i] == acts[i] && forall j :: i <= j < |all| ==> all[j] != Leaves(h);
    }
  }

  /** One handler call added to a disciplined history. */
  lemma CallStep(calls: seq<ConnectionIndex.Event>, c: ConnectionIndex.Event)
    requires Disciplined(calls) && (c.Assign? || c.Peek? ==> IsOpen(calls, c.h))
    ensures Disciplined(calls + [c]) && After(calls + [c]) == Handled(After(calls), c)
    ensures forall h: Handle :: IsOpen(calls + [c], h) <==> (c.Open? && c.h == h) || (IsOpen(calls, h) && c != Close(h))
  {
    hide IsOpen;
    var more := calls + [c];
    assert more[..|more| - 1] == calls;
    forall h: Handle ensures IsOpen(more, h) <==> (c.Open? && c.h == h) || (IsOpen(calls, h) && c != Close(h)) {
      OpenStep(calls, c, h);
    }
    forall i | 0 <= i < |more| && (more[i].Assign? || more[i].Peek?) ensures IsOpen(more[..i], more[i].h) {
      if i < |calls| {
        assert more[..i] == calls[..i] && more[i] == calls[i];
      } else {
        assert more[..i] == calls;
      }
    }
  }

  lemma RegistryStep(accounts: Accounts, e: Runs.Timed, domain: string)
    requires Keyed(accounts) && Stores.InDomain(accounts, domain) && Stores.OneDomain([e], domain)
    ensures Keyed(Runs.Happen(accounts, e)) && Stores.InDomain(Runs.Happen(accounts, e), domain)
  {
    hide Keyed, Stores.InDomain, Runs.Happen, Stores.OneDomain;
    assert [e][..0] == [];
    assert Runs.Run(accounts, [e]) == Runs.Happen(accounts, e);
    Stores.KeysOverRuns(accounts, [e], domain);
  }

  lemma AgreeStep(w: World, calls: seq<ConnectionIndex.Event>, acts: seq<Act>, a: Act, domain: string)
    requires Agree(w, calls, acts, domain) && WellFormed(acts, a, domain)
    ensures Agree(Happens(w, a), calls + CallsOf(w, a), acts + [a], domain)
  {
    hide After, Disciplined, IsOpen, OpenNow, Keyed, Stores.InDomain, Stores.OneDomain, Runs.Happen, RegistersAny,
      StepIn, IndexAfterSpeaking, UpdateGranted;
    forall h: Handle ensures OpenNow(acts + [a], h) <==>
      (a.Connects? && a.h == h) || (OpenNow(acts, h) && a != Leaves(h)) {
      OpenNowStep(acts, a, h);
    }
    match a
    case Connects(h, tls) => CallStep(calls, Open(h, tls));
    case Leaves(h) => CallStep(calls, Close(h));
    case Meanwhile(e) =>
      assert calls + [] == calls;
      RegistryStep(w.accounts, e, domain);
    case Speaks(h, m, _, _, _, _, _, _) => SpeakingAgrees(w, calls, acts, a, domain);
  }

  lemma SpeakingAgrees(w: World, calls: seq<ConnectionIndex.Event>, acts: seq<Act>, a: Act, domain: string)
    requires Agree(w, calls, acts, domain) && WellFormed(acts, a, domain) && a.Speaks?
    requires forall h: Handle :: OpenNow(acts + [a], h) <==> OpenNow(acts, h)
    ensures Agree(Happens(w, a), calls + CallsOf(w, a), acts + [a], domain)
  {
    hide After, Disciplined, IsOpen, OpenNow, Keyed, Stores.InDomain, MessageStep, IndexAfterSpeaking, UpdateGranted,
      FromKey;
    var peeked := calls + [Peek(a.h)];
    OpenState(calls, a.h);
    CallStep(calls, Peek(a.h));
    if a.m.command.Invalid? {
      assert !RegistersAny(w, a);
      assert calls + ([Peek(a.h)] + []) == peeked;
    } else {
      SpeakingIndex(w, a, domain);
      Stores.MessageKeepsDomain(a.env, a.config, w.accounts, Incoming(w.net.index, a), a.tag, a.m.address, a.nonce,
        a.now);
      if RegistersAny(w, a) {
        CallStep(peeked, Assign(a.h, FromKey(a.m)));
        assert calls + ([Peek(a.h)] + [Assign(a.h, FromKey(a.m))]) == peeked + [Assign(a.h, FromKey(a.m))];
      } else {
        assert calls + ([Peek(a.h)] + []) == peeked;
      }
    }
  }

  lemma {:induction false} AlwaysAgree(start: World, acts: seq<Act>, domain: string)
    requires Fresh(start, domain) && AllWellFormed(acts, domain)
    ensures Agree(Life(start, acts), Calls(start, acts), acts, domain)
    decreases |acts|
  {
    hide Agree, Happens, CallsOf, WellFormed;
    if acts == [] {
      StartAgrees(start, domain);
    } else {
      var n := |acts| - 1;
      WellFormedPrefix(acts, domain);
      AlwaysAgree(start, acts[..n], domain);
      AgreeStep(Life(start, acts[..n]), Calls(start, acts[..n]), acts[..n], acts[n], domain);
      assert acts == acts[..n] + [acts[n]];
    }
  }

  lemma StartAgrees(start: World, domain: string)
    requires Fresh(start, domain)
    ensures Agree(start, [], [], domain)
  {
  }

  lemma WellFormedPrefix(acts: seq<Act>, domain: string)
    requires acts != [] && AllWellFormed(acts, domain)
    ensures AllWellFormed(acts[..|acts| - 1], domain) && WellFormed(acts[..|acts| - 1], acts[|acts| - 1], domain)
  {
    hide WellFormed;
    var before := acts[..|acts| - 1];
    forall i | 0 <= i < |before| ensures WellFormed(before[..i], before[i], domain) {
      assert before[..i] == acts[..i];
    }
  }

  // ---------------------------------------------------------------- registrations

  predicate RegisteredAt(start: World, acts: seq<Act>, key: string, i: nat)
    requires start.net.Valid() && i < |acts|
  {
    Registers(Life(start, acts[..i]), acts[i], key)
  }

  /** The last registration of the user over any connection. */
  predicate LastRegistration(start: World, acts: seq<Act>, key: string, i: nat)
    requires start.net.Valid()
  {
    i < |acts| && RegisteredAt(start, acts, key, i) && forall j :: i < j < |acts| ==> !RegisteredAt(start, acts, key, j)
  }

  lemma LastRegistrationStep(start: World, acts: seq<Act>, key: string, i: nat)
    requires start.net.Valid() && acts != [] && LastRegistration(start, acts, key, i)
    ensures var n := |acts| - 1;
            if RegisteredAt(start, acts, key, n) then i == n else i < n && LastRegistration(start, acts[..n], key, i)
  {
    hide Registers, Life;
    var n := |acts| - 1;
    if i < n {
      assert !RegisteredAt(start, acts, key, n);
      forall j | 0 <= j < n ensures RegisteredAt(start, acts[..n], key, j) <==> RegisteredAt(start, acts, key, j) {
        assert acts[..n][..j] == acts[..j];
      }
    }
  }

  lemma CallsDecide(calls: seq<ConnectionIndex.Event>, w: World, a: Act, key: string, h: Handle)
    ensures MostRecent(calls + CallsOf(w, a), key, h) <==>
            if Registers(w, a, key) then a.h == h else MostRecent(calls, key, h)
  {
    hide MostRecent, UpdateGranted, FromKey;
    match a
    case Connects(g, tls) => MostRecentStep(calls, Open(g, tls), key, h);
    case Leaves(g) => MostRecentStep(calls, Close(g), key, h);
    case Meanwhile(_) => assert calls + [] == calls;
    case Speaks(g, m, _, _, _, _, _, _) =>
      var peeked := calls + [Peek(g)];
      MostRecentStep(calls, Peek(g), key, h);
      if RegistersAny(w, a) {
        MostRecentStep(peeked, Assign(g, FromKey(m)), key, h);
        assert calls + ([Peek(g)] + [Assign(g, FromKey(m))]) == peeked + [Assign(g, FromKey(m))];
      } else {
        assert calls + ([Peek(g)] + []) == peeked;
      }
  }

  lemma {:induction false} RegistrationsDecide(start: World, acts: seq<Act>, key: string, i: nat, h: Handle)
    requires start.net.Valid() && LastRegistration(start, acts, key, i)
    ensures MostRecent(Calls(start, acts), key, h) <==> acts[i].h == h
    decreases |acts|
  {
    hide Registers, Life, CallsOf, MostRecent, LastRegistration;
    if acts == [] {
      assert false by { NoLastRegistration(start, key, i); }
    } else {
      var n := |acts| - 1;
      LastRegistrationStep(start, acts, key, i);
      CallsDecide(Calls(start, acts[..n]), Life(start, acts[..n]), acts[n], key, h);
      if !RegisteredAt(start, acts, key, n) {
        RegistrationsDecide(start, acts[..n], key, i, h);
      }
    }
  }

  lemma NoLastRegistration(start: World, key: string, i: nat)
    requires start.net.Valid()
    ensures !LastRegistration(start, [], key, i)
  {
  }

  // ---------------------------------------------------------------- calls and responses

  /** Handed over if and only if the connection is open, and then to that connection. */
  predicate Reaches(acts: seq<Act>, attempts: seq<Attempt>, h: Handle) {
    (attempts != [] <==> OpenNow(acts, h)) && (attempts != [] ==> HandedTo(attempts, h))
  }

  /** A fresh message for a key goes the same way from the socket listener and from the loop over the responses for any
      connection `g`. */
  lemma KeyedEitherWay(net: Net, f: SipMessage, g: Handle, request: SipMessage, domain: string, works: bool)
    requires net.Valid() && net.linked && f.sentCode == {} && f.key != "" && !Confirms(request, f)
    ensures FromSocket(net, f, works).attempts == Expected(net, f)
    ensures Respond(net, g, request, domain, f, works).attempts == Expected(net, f)
  {
    hide WsSend, SipSend, WsTouched, SipTouched, Confirms;
    var m := f.(conn := Some(g));
    ExactlyOnceWhenDeliverable(net, f, works);
    ExactlyOnceWhenDeliverable(net, m, works);
    assert Expected(net, m) == Expected(net, f);
    assert net.(index := net.index) == net;
  }

  /** After any joint life a fresh WebSocket message for a user's key, whichever listener sends it, reaches exactly the
      connection over which the user was last granted a REGISTER. */
  lemma KeyedReachesRegistrant(start: World, acts: seq<Act>, domain: string, i: nat, f: SipMessage, g: Handle,
                               request: SipMessage, works: bool)
    requires Fresh(start, domain) && AllWellFormed(acts, domain) && LastRegistration(start, acts, f.key, i)
    requires f.sentCode == {} && f.key != "" && f.proto == Ws && !f.command.Invalid? && !Confirms(request, f)
    ensures var net := Life(start, acts).net;
            Reaches(acts, FromSocket(net, f, works).attempts, acts[i].h)
            && Reaches(acts, Respond(net, g, request, domain, f, works).attempts, acts[i].h)
  {
    hide Life, Calls, FromSocket, Respond, Confirms, Disciplined, MostRecent, IsOpen, OpenNow, After, Keyed,
      LastRegistration, AllWellFormed, Stores.InDomain, Expected;
    RegistrationSpeaks(start, acts, f.key, i);
    var net, calls, h := Life(start, acts).net, Calls(start, acts), acts[i].h;
    AlwaysAgree(start, acts, domain);
    RegistrationsDecide(start, acts, f.key, i, h);
    KeyedDelivery(net, calls, f, h, works);
    KeyedEitherWay(net, f, g, request, domain, works);
    OneAttempt(net, f, works);
  }

  /** Where the user has never been granted a REGISTER over a connection, it goes nowhere. */
  lemma KeyedReachesNobody(start: World, acts: seq<Act>, domain: string, f: SipMessage, g: Handle,
                           request: SipMessage, works: bool)
    requires Fresh(start, domain) && AllWellFormed(acts, domain) && NeverRegistered(start, acts, f.key)
    requires f.sentCode == {} && f.key != "" && f.proto == Ws && !Confirms(request, f)
    ensures var net := Life(start, acts).net;
            FromSocket(net, f, works).attempts == [] && Respond(net, g, request, domain, f, works).attempts == []
  {
    hide Life, Calls, FromSocket, Respond, Confirms, Disciplined, MostRecent, After, Keyed, NeverRegistered,
      AllWellFormed, Stores.InDomain, IsOpen, OpenNow;
    var net, calls := Life(start, acts).net, Calls(start, acts);
    AlwaysAgree(start, acts, domain);
    NeverAssigned(start, acts, f.key);
    if After(calls).Lookup(f.key).Some? {
      FoundHandle(calls, f.key);
    }
    KeyedEitherWay(net, f, g, request, domain, works);
  }

  /** A request for a user, after any life of the server, whose copy goes out over WebSocket: it is handed over if and
      only if the connection over which the user was last granted a REGISTER is open, and then to that connection.
      The request may have come in over a socket, or over the connection `g`. */
  lemma CallReachesRegistrant(start: World, acts: seq<Act>, domain: string, i: nat, env: Env, config: Config,
                              call: SipMessage, tag: nat, svc: Endpoint, nonce: string, now: Time, f: SipMessage,
                              g: Handle, works: bool)
    requires Fresh(start, domain) && AllWellFormed(acts, domain) && config.domain == domain
    requires env.resolve("") == None && Unsent(call) && !call.command.Response? && !call.command.Invalid?
    requires var w := Life(start, acts);
             f in MessageStep(env, config, w.accounts, call, tag, svc, nonce, now).replies
               && f.command == call.command &&
             LastRegistration(start, acts, ToKey(call), i) &&
             CopyOverWs(env, config, w.accounts, call, now)
    ensures var w := Life(start, acts);
            var s := MessageStep(env, config, w.accounts, call, tag, svc, nonce, now);
            Reaches(acts, FromSocket(w.net, f, works).attempts, acts[i].h)
            && Reaches(acts, Respond(w.net, g, s.m, domain, f, works).attempts, acts[i].h)
  {
    hide MessageStep, Life, Calls, FromSocket, Respond, Disciplined, After, Keyed, CopyOverWs,
      LastRegistration, ToKey, AllWellFormed, Stores.InDomain, Reaches, IsOpen, OpenNow;
    var w := Life(start, acts);
    AlwaysAgree(start, acts, domain);
    Stores.MessageKeepsDomain(env, config, w.accounts, call, tag, svc, nonce, now);
    CopyIsKeyed(env, config, w.accounts, call, tag, svc, nonce, now, f);
    var s := MessageStep(env, config, w.accounts, call, tag, svc, nonce, now);
    KeyedReachesRegistrant(start, acts, domain, i, f, g, s.m, works);
  }

  /** Where the user has never been granted a REGISTER over a connection, the copy goes nowhere. */
  lemma CallReachesNobody(start: World, acts: seq<Act>, domain: string, env: Env, config: Config, call: SipMessage,
                          tag: nat, svc: Endpoint, nonce: string, now: Time, f: SipMessage, g: Handle, works: bool)
    requires Fresh(start, domain) && AllWellFormed(acts, domain) && config.domain == domain
    requires env.resolve("") == None && Unsent(call) && !call.command.Response? && !call.command.Invalid?
    requires var w := Life(start, acts);
             f in MessageStep(env, config, w.accounts, call, tag, svc, nonce, now).replies
               && f.command == call.command &&
             NeverRegistered(start, acts, ToKey(call)) &&
             CopyOverWs(env, config, w.accounts, call, now)
    ensures var w := Life(start, acts);
            var s := MessageStep(env, config, w.accounts, call, tag, svc, nonce, now);
            FromSocket(w.net, f, works).attempts == [] && Respond(w.net, g, s.m, domain, f, works).attempts == []
  {
    hide MessageStep, Life, Calls, FromSocket, Respond, Disciplined, After, Keyed, CopyOverWs,
      NeverRegistered, ToKey, AllWellFormed, Stores.InDomain, IsOpen, OpenNow;
    var w := Life(start, acts);
    AlwaysAgree(start, acts, domain);
    Stores.MessageKeepsDomain(env, config, w.accounts, call, tag, svc, nonce, now);
    CopyIsKeyed(env, config, w.accounts, call, tag, svc, nonce, now, f);
    var s := MessageStep(env, config, w.accounts, call, tag, svc, nonce, now);
    KeyedReachesNobody(start, acts, domain, f, g, s.m, works);
  }

  /** The way back: a response whose relay goes out over WebSocket reaches exactly the connection over which the user
      From names was last granted a REGISTER, or nobody where there is none. */
  lemma RelayReachesRegistrant(start: World, acts: seq<Act>, domain: string, env: Env, config: Config, m: SipMessage,
                               tag: nat, svc: Endpoint, nonce: string, now: Time, f: SipMessage, g: Handle, works: bool)
    requires Fresh(start, domain) && AllWellFormed(acts, domain)
    requires env.resolve("") == None && Unsent(m) && m.command.Response?
    requires var accounts := Life(start, acts).accounts;
             f in MessageStep(env, config, accounts, m, tag, svc, nonce, now).replies &&
             RelayOverWs(accounts, m, now)
    ensures var w := Life(start, acts);
            var s := MessageStep(env, config, w.accounts, m, tag, svc, nonce, now);
            var bySocket, byConnection :=
              FromSocket(w.net, f, works).attempts, Respond(w.net, g, s.m, domain, f, works).attempts;
            (forall i: nat :: LastRegistration(start, acts, FromKey(m), i) ==>
              Reaches(acts, bySocket, acts[i].h) && Reaches(acts, byConnection, acts[i].h)) &&
            (NeverRegistered(start, acts, FromKey(m)) ==> bySocket == [] && byConnection == [])
  {
    hide MessageStep, Life, Calls, FromSocket, Respond, Disciplined, After, Keyed, RelayOverWs,
      LastRegistration, NeverRegistered, FromKey, AllWellFormed, Stores.InDomain, Reaches, IsOpen, OpenNow;
    var w := Life(start, acts);
    AlwaysAgree(start, acts, domain);
    RelayIsKeyed(env, config, w.accounts, m, tag, svc, nonce, now, f);
    StepKeepsCommand(env, config, w.accounts, m, tag, svc, nonce, now);
    var s := MessageStep(env, config, w.accounts, m, tag, svc, nonce, now);
    forall i: nat | LastRegistration(start, acts, FromKey(m), i)
      ensures i < |acts| && acts[i].Speaks?
      ensures Reaches(acts, FromSocket(w.net, f, works).attempts, acts[i].h)
              && Reaches(acts, Respond(w.net, g, s.m, domain, f, works).attempts, acts[i].h)
    {
      RegistrationSpeaks(start, acts, FromKey(m), i);
      KeyedReachesRegistrant(start, acts, domain, i, f, g, s.m, works);
    }
    if NeverRegistered(start, acts, FromKey(m)) {
      KeyedReachesNobody(start, acts, domain, f, g, s.m, works);
    }
  }

  predicate NeverRegistered(start: World, acts: seq<Act>, key: string)
    requires start.net.Valid()
  {
    forall j :: 0 <= j < |acts| ==> !RegisteredAt(start, acts, key, j)
  }

  lemma {:induction false} NeverAssigned(start: World, acts: seq<Act>, key: string)
    requires start.net.Valid() && NeverRegistered(start, acts, key)
    ensures forall h: Handle :: !MostRecent(Calls(start, acts), key, h)
    decreases |acts|
  {
    hide Registers, Life, CallsOf, MostRecent;
    if acts == [] {
      NothingAssigned(key);
    } else {
      var n := |acts| - 1;
      forall j | 0 <= j < n ensures !RegisteredAt(start, acts[..n], key, j) {
        assert acts[..n][..j] == acts[..j];
        assert !RegisteredAt(start, acts, key, j);
      }
      assert !RegisteredAt(start, acts, key, n);
      NeverAssigned(start, acts[..n], key);
      forall h: Handle ensures !MostRecent(Calls(start, acts), key, h) {
        CallsDecide(Calls(start, acts[..n]), Life(start, acts[..n]), acts[n], key, h);
      }
    }
  }

  lemma NothingAssigned(key: string)
    ensures forall h: Handle :: !MostRecent([], key, h)
  {
  }

  lemma RegistrationSpeaks(start: World, acts: seq<Act>, key: string, i: nat)
    requires start.net.Valid() && LastRegistration(start, acts, key, i)
    ensures i < |acts| && acts[i].Speaks?
  {
    hide Life, UpdateGranted;
  }

  lemma OneAttempt(net: Net, f: SipMessage, works: bool)
    requires net.Valid()
    ensures |Expected(net, f)| <= 1
  {
  }
}
