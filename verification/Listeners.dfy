/** The two listener objects (SipServer.cpp, WSListener.cpp). */
module Listeners {
  import opened Wrappers
  import opened Locations
  import opened AddressText
  import opened Messages
  import opened ConnectionIndex
  import opened Delivery

  class WSListener {
    var connections: map<Handle, ConnectionState>
    var users: map<string, Handle>
    var sessionCount: nat

    function Maps(): Index
      reads this
    {
      Index(connections, users)
    }

    constructor ()
      ensures Maps() == After([]) && sessionCount == 0
    {
      connections, users, sessionCount := map[], map[], 0;
    }

    /** onOpenPlain and onOpenTLS. */
    method OnOpen(h: Handle, tls: bool)
      modifies this
      ensures Maps() == old(Maps()).Opened(h, tls) && sessionCount == old(sessionCount) + 1
    {
      sessionCount := sessionCount + 1;
      if h !in connections {
        connections := connections[h := ConnectionState("", Some(h), tls)];
      }
    }

    method OnClose(h: Handle)
      modifies this`connections
      ensures Maps() == old(Maps()).Closed(h)
    {
      connections := connections - {h};
    }

    method GetState(key: string) returns (state: Option<ConnectionState>)
      ensures state == Maps().Lookup(key)
    {
      if key !in users {
        return None;
      }
      var h := users[key];
      if h !in connections {
        return None;
      }
      state := Some(connections[h]);
    }

    /** operator[] on the connection map. */
    method At(h: Handle) returns (state: ConnectionState)
      modifies this`connections
      ensures Maps() == old(Maps()).Peeked(h) && h in connections && state == connections[h]
    {
      if h !in connections {
        connections := connections[h := DEFAULT_STATE];
      }
      state := connections[h];
    }

    method SetStateKey(h: Handle, key: string)
      modifies this`connections, this`users
      ensures Maps() == old(Maps()).Assigned(h, key)
    {
      users := users[key := h];
      var state := At(h);
      connections := connections[h := state.(key := key)];
    }

    /** sendMessage; `works` says whether the transport takes the text. */
    method SendMessage(m0: SipMessage, works: bool) returns (s: Sent)
      modifies this`connections
      ensures s == WsSend(old(Maps()), m0, works) && Maps() == WsTouched(old(Maps()), m0)
    {
      var m := m0;
      if Skipped(m, ConnectionListener) {
        return Sent(m, true, []);
      }
      m := Marked(m, ConnectionListener);
      if m.proto != Ws {
        return Sent(m, false, []);
      }
      if m.key == "" {
        if m.conn.Some? {
          var state := At(m.conn.value);
          return Sent(m, works, [ToConnection(state)]);
        }
      } else {
        var state := GetState(m.key);
        if state.Some? {
          return Sent(m, works, [ToConnection(state.value)]);
        }
      }
      s := Sent(m, false, []);
    }
  }

  class SipServer {
    const sockets: array<int>
    var next: WSListener?

    ghost predicate Valid()
      reads this, sockets
    {
      sockets.Length == 4 && Network(NoMaps()).Valid()
    }

    function Network(x: Index): Net
      reads this, sockets
    {
      Net(sockets[..], next != null, x)
    }

    function NoMaps(): Index {
      Index(map[], map[])
    }

    /** Every slot starts closed. */
    constructor ()
      ensures Valid() && fresh(sockets) && next == null && sockets[..] == [-1, -1, -1, -1]
    {
      sockets := new int[4];
      next := null;
      new;
      for slot := 0 to 4
        invariant next == null && forall i :: 0 <= i < slot ==> sockets[i] == SOCKET_ERROR
      {
        sockets[slot] := SOCKET_ERROR;
      }
      assert sockets[..] == [-1, -1, -1, -1];
    }

    /** openSocket; `fd` is what the system returns for a new socket and `bound` whether binding it succeeds. */
    method OpenSocket(p: Proto, fd: int, bound: bool) returns (ok: bool)
      requires Valid()
      modifies sockets
      ensures Valid() && forall x :: Network(x) == old(Network(x)).SocketOpened(p, fd)
      ensures ok <==> old(sockets[Slot(p)]) != SOCKET_ERROR || ((p.Udp? || p.Tcp?) && fd != SOCKET_ERROR && bound)
    {
      if sockets[Slot(p)] != SOCKET_ERROR {
        return true;
      }
      match p
      case Udp | Tcp =>
        sockets[Slot(p)] := fd;
        ok := fd != SOCKET_ERROR && bound;
      case _ =>
        ok := false;
    }

    method CloseSocket(p: Proto)
      requires Valid()
      modifies sockets
      ensures Valid() && forall x :: Network(x) == old(Network(x)).SocketClosed(p)
    {
      if sockets[Slot(p)] != SOCKET_ERROR {
        sockets[Slot(p)] := SOCKET_ERROR;
      } else {
        assert forall i :: 0 <= i < 4 ==> sockets[..][Slot(p) := SOCKET_ERROR][i] == sockets[i];
      }
    }

    /** sendMessage, passed on to the next listener when the slot of the transport is closed. */
    method SendMessage(m0: SipMessage, works: bool) returns (s: Sent)
      requires Valid()
      modifies if next == null then {} else {next}
      ensures var x := if next == null then Index(map[], map[]) else old(next.Maps());
              s == SipSend(sockets[..], next != null, x, m0, works) &&
              (next != null ==> next.Maps() == SipTouched(sockets[..], true, x, m0))
    {
      if Skipped(m0, SocketListener) {
        return Sent(m0, true, []);
      }
      var m := Marked(m0, SocketListener);
      var fd := sockets[Slot(m.proto)];
      if fd == SOCKET_ERROR {
        s := Sent(m, false, []);
        if next != null {
          s := next.SendMessage(m, works);
          s := s.(ok := false);
        }
      } else {
        s := Sent(m, works, [ToSocket(fd, m.address)]);
      }
    }
  }

  // ---------------------------------------------------------------- the loop over responses

  /** How far the response loop of processMessage has come. */
  datatype Progress = Progress(index: Index, attempts: seq<Attempt>, ok: bool)

  /** A 200 response to a REGISTER assigns the caller's key to the connection. */
  predicate Confirms(request: SipMessage, r: SipMessage) {
    request.command.Register? && r.command.Response? && r.code == 200
  }

  /** parseUid of the From header, with the registry's domain. */
  function UserKey(request: SipMessage, domain: string): string {
    var from := Get(request.headers, "F");
    (if ':' !in from && '@' !in from then from else Id(from)) + "@" + domain
  }

  function Respond(net: Net, h: Handle, request: SipMessage, domain: string, r: SipMessage, works: bool): Progress
    requires net.Valid()
  {
    var x := if Confirms(request, r) then net.index.Assigned(h, UserKey(request, domain)) else net.index;
    var m := r.(conn := Some(h));
    var s := WsSend(x, m, works);
    var x1 := WsTouched(x, m);
    if s.ok then Progress(x1, s.attempts, true)
    else if !net.linked then Progress(x1, s.attempts, false)
    else
      var f := SipSend(net.sockets, true, x1, s.m, works);
      Progress(SipTouched(net.sockets, true, x1, s.m), s.attempts + f.attempts, f.ok)
  }

  /** The responses in order, until one of them fails. */
  function RespondAll(net: Net, h: Handle, request: SipMessage, domain: string, rs: seq<SipMessage>,
                      works: seq<bool>): Progress
    requires net.Valid() && |works| == |rs|
  {
    if rs == [] then Progress(net.index, [], true)
    else
      var n := |rs| - 1;
      var p := RespondAll(net, h, request, domain, rs[..n], works[..n]);
      if !p.ok then p
      else
        var q := Respond(net.(index := p.index), h, request, domain, rs[n], works[n]);
        q.(attempts := p.attempts + q.attempts)
  }

  lemma {:induction false} StoppedStays(net: Net, h: Handle, request: SipMessage, domain: string,
                                        rs: seq<SipMessage>, works: seq<bool>, i: nat)
    requires net.Valid() && |works| == |rs| && i <= |rs|
    requires !RespondAll(net, h, request, domain, rs[..i], works[..i]).ok
    ensures RespondAll(net, h, request, domain, rs, works) == RespondAll(net, h, request, domain, rs[..i], works[..i])
    decreases |rs|
  {
    hide Respond;
    var n := |rs| - 1;
    if i == |rs| {
      assert rs[..i] == rs && works[..i] == works;
    } else {
      assert rs[..n][..i] == rs[..i] && works[..n][..i] == works[..i];
      StoppedStays(net, h, request, domain, rs[..n], works[..n], i);
    }
  }

  // ---------------------------------------------------------------- what the loop hands over

  /** A response up to position `i` has assigned the caller's key. */
  predicate ConfirmedBy(request: SipMessage, rs: seq<SipMessage>, i: int)
    requires i < |rs|
  {
    exists j :: 0 <= j <= i && Confirms(request, rs[j])
  }

  /** The network as response `i` finds it: the connection carries the caller's key once a response up to it has
      confirmed a registration. */
  function NetAt(net: Net, h: Handle, request: SipMessage, domain: string, rs: seq<SipMessage>, i: int): Net
    requires i < |rs|
  {
    if ConfirmedBy(request, rs, i) then net.(index := net.index.Assigned(h, UserKey(request, domain))) else net
  }

  predicate PassesAt(net: Net, h: Handle, request: SipMessage, domain: string, rs: seq<SipMessage>, works: seq<bool>,
                     i: nat)
    requires net.Valid() && i < |rs| == |works|
  {
    Passes(NetAt(net, h, request, domain, rs, i), rs[i].(conn := Some(h)), works[i])
  }

  /** How many responses the loop comes to: all of them, or those up to the first that fails. */
  function Reached(net: Net, h: Handle, request: SipMessage, domain: string, rs: seq<SipMessage>, works: seq<bool>,
                   i: nat): (n: nat)
    requires net.Valid() && i <= |rs| == |works|
    ensures i <= n <= |rs|
    decreases |rs| - i
  {
    if i == |rs| then i
    else if PassesAt(net, h, request, domain, rs, works, i) then Reached(net, h, request, domain, rs, works, i + 1)
    else i + 1
  }

  /** The hand-overs the first `n` responses should get, in order. */
  function ExpectedLoop(net: Net, h: Handle, request: SipMessage, domain: string, rs: seq<SipMessage>,
                        n: nat): seq<Attempt>
    requires net.Valid() && n <= |rs|
  {
    if n == 0 then []
    else
      ExpectedLoop(net, h, request, domain, rs, n - 1)
      + Expected(NetAt(net, h, request, domain, rs, n - 1), rs[n - 1].(conn := Some(h)))
  }

  /** The loop hands over each response it comes to as expected, in order, and nothing else; it comes to all of
      them exactly when every one passes. */
  lemma LoopAttempts(net: Net, h: Handle, request: SipMessage, domain: string, rs: seq<SipMessage>, works: seq<bool>)
    requires net.Valid() && net.linked && |works| == |rs| && h in net.index.connections
    requires forall i :: 0 <= i < |rs| ==> rs[i].sentCode == {}
    ensures var p := RespondAll(net, h, request, domain, rs, works);
            p.attempts == ExpectedLoop(net, h, request, domain, rs, Reached(net, h, request, domain, rs, works, 0))
            && (p.ok <==> forall i :: 0 <= i < |rs| ==> PassesAt(net, h, request, domain, rs, works, i))
  {
    hide *;
    LoopFrom(net, h, request, domain, rs, works, 0);
  }

  lemma {:induction false} LoopFrom(net: Net, h: Handle, request: SipMessage, domain: string,
                                    rs: seq<SipMessage>, works: seq<bool>, n: nat)
    requires net.Valid() && net.linked && n <= |rs| == |works| && h in net.index.connections
    requires forall i :: 0 <= i < |rs| ==> rs[i].sentCode == {}
    requires forall i :: 0 <= i < n ==> PassesAt(net, h, request, domain, rs, works, i)
    ensures var p := RespondAll(net, h, request, domain, rs, works);
            p.attempts == ExpectedLoop(net, h, request, domain, rs, Reached(net, h, request, domain, rs, works, n))
            && (p.ok <==> forall i :: 0 <= i < |rs| ==> PassesAt(net, h, request, domain, rs, works, i))
    decreases |rs| - n
  {
    hide RespondAll, ExpectedLoop, PassesAt, NetAt;
    if n == |rs| {
      LoopPrefix(net, h, request, domain, rs, works, n);
      assert rs[..n] == rs && works[..n] == works;
    } else if PassesAt(net, h, request, domain, rs, works, n) {
      LoopFrom(net, h, request, domain, rs, works, n + 1);
    } else {
      LoopPrefix(net, h, request, domain, rs, works, n);
      LoopTurn(net, h, request, domain, rs, works, n);
      StoppedStays(net, h, request, domain, rs, works, n + 1);
    }
  }

  /** The index after the first `n` responses. */
  function IndexAfter(net: Net, h: Handle, request: SipMessage, domain: string, rs: seq<SipMessage>, n: nat): Index
    requires n <= |rs|
  {
    if n == 0 then net.index else NetAt(net, h, request, domain, rs, n - 1).index
  }

  lemma {:induction false} LoopPrefix(net: Net, h: Handle, request: SipMessage, domain: string,
                                      rs: seq<SipMessage>, works: seq<bool>, n: nat)
    requires net.Valid() && net.linked && n <= |rs| == |works| && h in net.index.connections
    requires forall i :: 0 <= i < |rs| ==> rs[i].sentCode == {}
    requires forall i :: 0 <= i < n ==> PassesAt(net, h, request, domain, rs, works, i)
    ensures RespondAll(net, h, request, domain, rs[..n], works[..n])
            == Progress(IndexAfter(net, h, request, domain, rs, n), ExpectedLoop(net, h, request, domain, rs, n), true)
    decreases n
  {
    hide PassesAt, NetAt, Respond;
    if n > 0 {
      LoopPrefix(net, h, request, domain, rs, works, n - 1);
      LoopTurn(net, h, request, domain, rs, works, n - 1);
    }
  }

  /** One turn behind responses that all passed. */
  lemma LoopTurn(net: Net, h: Handle, request: SipMessage, domain: string, rs: seq<SipMessage>, works: seq<bool>,
                 n: nat)
    requires net.Valid() && net.linked && n < |rs| == |works| && h in net.index.connections && rs[n].sentCode == {}
    requires RespondAll(net, h, request, domain, rs[..n], works[..n])
             == Progress(IndexAfter(net, h, request, domain, rs, n), ExpectedLoop(net, h, request, domain, rs, n), true)
    ensures RespondAll(net, h, request, domain, rs[..n + 1], works[..n + 1])
            == Progress(IndexAfter(net, h, request, domain, rs, n + 1),
              ExpectedLoop(net, h, request, domain, rs, n + 1),
                        PassesAt(net, h, request, domain, rs, works, n))
  {
    hide Respond, Expected, Passes, UserKey, Confirms;
    assert rs[..n + 1][..n] == rs[..n] && works[..n + 1][..n] == works[..n];
    var y := IndexAfter(net, h, request, domain, rs, n);
    AssignedTwice(net.index, h, UserKey(request, domain));
    OneResponse(net.(index := y), h, request, domain, rs[n], works[n]);
  }

  lemma AssignedTwice(x: Index, h: Handle, key: string)
    ensures x.Assigned(h, key).Assigned(h, key) == x.Assigned(h, key) && h in x.Assigned(h, key).connections
  {
  }

  /** One response, on a connection that has a state. */
  lemma OneResponse(net: Net, h: Handle, request: SipMessage, domain: string, r: SipMessage, works: bool)
    requires net.Valid() && net.linked && r.sentCode == {} && h in net.index.connections
    ensures var x := if Confirms(request, r) then net.index.Assigned(h, UserKey(request, domain)) else net.index;
            var m := r.(conn := Some(h));
            Respond(net, h, request, domain, r, works)
            == Progress(x, Expected(net.(index := x), m), Passes(net.(index := x), m, works))
  {
    hide WsSend, SipSend, UserKey, Deliverable, Confirms;
    var x := if Confirms(request, r) then net.index.Assigned(h, UserKey(request, domain)) else net.index;
    var m := r.(conn := Some(h));
    ExactlyOnceWhenDeliverable(net.(index := x), m, works);
    NothingInserted(net.(index := x), h, m);
    NothingInserted(net.(index := x), h, WsSend(x, m, works).m) by { WsSendsOnce(x, m, works); }
  }

  lemma NothingInserted(net: Net, h: Handle, m: SipMessage)
    requires net.Valid() && h in net.index.connections && m.conn == Some(h)
    ensures WsTouched(net.index, m) == net.index && SipTouched(net.sockets, true, net.index, m) == net.index
  {
  }

  ghost function Whole(ws: WSListener, sip: SipServer?): Net
    reads ws, sip, if sip == null then {} else {sip.sockets}
  {
    if sip == null then Net([-1, -1, -1, -1], false, ws.Maps()) else sip.Network(ws.Maps())
  }

  ghost predicate Linked(ws: WSListener, sip: SipServer?)
    reads ws, sip, if sip == null then {} else {sip.sockets}
  {
    sip != null ==> sip.Valid() && sip.next == ws
  }

  /** One turn of the response loop: send here and, when that fails, through the other listener. */
  method ProcessResponse(ws: WSListener, sip: SipServer?, h: Handle, request: SipMessage, domain: string,
                         r: SipMessage, works: bool)
    returns (attempts: seq<Attempt>, ok: bool)
    requires Linked(ws, sip)
    modifies ws
    ensures Linked(ws, sip) && Whole(ws, sip) == old(Whole(ws, sip)).(index := ws.Maps())
    ensures old(Whole(ws, sip)).Valid()
    ensures Progress(ws.Maps(), attempts, ok) == Respond(old(Whole(ws, sip)), h, request, domain, r, works)
  {
    hide WsSend, SipSend, WsTouched, SipTouched, UserKey, Confirms;
    if Confirms(request, r) {
      ws.SetStateKey(h, UserKey(request, domain));
    }
    var s := ws.SendMessage(r.(conn := Some(h)), works);
    attempts, ok := s.attempts, s.ok;
    if !ok && sip != null {
      s := sip.SendMessage(s.m, works);
      attempts, ok := attempts + s.attempts, s.ok;
    }
  }

  /** The response loop of WSListener::processMessage, over both listeners. */
  method ProcessResponses(ws: WSListener, sip: SipServer?, h: Handle, request: SipMessage, domain: string,
                          rs: seq<SipMessage>, works: seq<bool>)
    returns (attempts: seq<Attempt>, ok: bool)
    requires |works| == |rs| && Linked(ws, sip)
    modifies ws
    ensures old(Whole(ws, sip)).Valid()
    ensures Progress(ws.Maps(), attempts, ok) == RespondAll(old(Whole(ws, sip)), h, request, domain, rs, works)
  {
    hide Respond;
    attempts, ok := [], true;
    ghost var net := Whole(ws, sip);
    for i := 0 to |rs|
      invariant ok && Linked(ws, sip) && net.Valid() && Whole(ws, sip) == net.(index := ws.Maps())
      invariant Progress(ws.Maps(), attempts, ok) == RespondAll(net, h, request, domain, rs[..i], works[..i])
    {
      assert rs[..i + 1][..i] == rs[..i] && works[..i + 1][..i] == works[..i];
      var more;
      more, ok := ProcessResponse(ws, sip, h, request, domain, rs[i], works[i]);
      attempts := attempts + more;
      if !ok {
        StoppedStays(net, h, request, domain, rs, works, i + 1);
        return;
      }
    }
    assert rs[..|rs|] == rs && works[..|works|] == works;
  }

  // ---------------------------------------------------------------- the loop of the socket server

  datatype Outbox = Outbox(index: Index, attempts: seq<Attempt>)

  /** Every response in order; a failure does not stop the loop. */
  function SendAll(net: Net, rs: seq<SipMessage>, works: seq<bool>): Outbox
    requires net.Valid() && |works| == |rs|
  {
    if rs == [] then Outbox(net.index, [])
    else
      var n := |rs| - 1;
      var before := SendAll(net, rs[..n], works[..n]);
      Outbox(SipTouched(net.sockets, net.linked, before.index, rs[n]),
             before.attempts + SipSend(net.sockets, net.linked, before.index, rs[n], works[n]).attempts)
  }

  /** The hand-overs the messages should get, in order. */
  function ExpectedAll(net: Net, rs: seq<SipMessage>): seq<Attempt>
    requires net.Valid()
  {
    if rs == [] then [] else ExpectedAll(net, rs[..|rs| - 1]) + Expected(net, rs[|rs| - 1])
  }

  predicate Unsent(m: SipMessage) {
    m.sentCode == {} && m.conn == None
  }

  /** The socket server hands over every response as expected, in order, and nothing else. */
  lemma {:induction false} SendAllAttempts(net: Net, rs: seq<SipMessage>, works: seq<bool>)
    requires net.Valid() && net.linked && |works| == |rs| && forall i :: 0 <= i < |rs| ==> Unsent(rs[i])
    ensures SendAll(net, rs, works) == Outbox(net.index, ExpectedAll(net, rs))
    decreases |rs|
  {
    hide SipSend, SipTouched, Deliverable, Expected;
    if rs != [] {
      var n := |rs| - 1;
      SendAllAttempts(net, rs[..n], works[..n]);
      ExactlyOnceWhenDeliverable(net, rs[n], works[n]);
      NothingPeeked(net, rs[n]);
    }
  }

  lemma NothingPeeked(net: Net, m: SipMessage)
    requires net.Valid() && m.conn == None
    ensures SipTouched(net.sockets, net.linked, net.index, m) == net.index
  {
  }

  ghost function NextMaps(sip: SipServer): Index
    reads sip, sip.next
  {
    if sip.next == null then Index(map[], map[]) else sip.next.Maps()
  }

  /** The response loop of SipServer::doProcessMessage. */
  method SendResponses(sip: SipServer, rs: seq<SipMessage>, works: seq<bool>) returns (attempts: seq<Attempt>)
    requires sip.Valid() && |works| == |rs|
    modifies if sip.next == null then {} else {sip.next}
    ensures sip.Valid() && old(sip.Network(NextMaps(sip))).Valid()
    ensures Outbox(NextMaps(sip), attempts) == SendAll(old(sip.Network(NextMaps(sip))), rs, works)
  {
    hide SipSend, WsTouched;
    attempts := [];
    ghost var net := sip.Network(NextMaps(sip));
    for i := 0 to |rs|
      invariant sip.Valid() && net.Valid() && sip.Network(NextMaps(sip)) == net.(index := NextMaps(sip))
      invariant Outbox(NextMaps(sip), attempts) == SendAll(net, rs[..i], works[..i])
    {
      assert rs[..i + 1][..i] == rs[..i] && works[..i + 1][..i] == works[..i];
      var s := sip.SendMessage(rs[i], works[i]);
      attempts := attempts + s.attempts;
    }
    assert rs[..|rs|] == rs && works[..|works|] == works;
  }
}
