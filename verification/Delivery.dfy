/** Sending through the two linked listeners, as a function of sockets and connections (SipServer.cpp,
    WSListener.cpp).  Whether a transport accepts the text is decided outside: `works`. */
module Delivery {
  import opened Wrappers
  import opened Locations
  import opened Messages
  import opened ConnectionIndex

  const SOCKET_ERROR := -1

  function Slot(p: Proto): (r: nat)
    ensures r < 4
  {
    match p
    case NoProto => 0
    case Udp => 1
    case Tcp => 2
    case Ws => 3
  }

  /** One hand-over of the text to a transport. */
  datatype Attempt = ToSocket(fd: int, address: Endpoint) | ToConnection(state: ConnectionState)

  datatype Sent = Sent(m: SipMessage, ok: bool, attempts: seq<Attempt>)

  predicate SentBy(m: SipMessage, mark: Listener) {
    mark in m.sentCode
  }

  /** Nothing to do: sent this way before, not a message, or no transport known. */
  predicate Skipped(m: SipMessage, mark: Listener) {
    SentBy(m, mark) || m.command.Invalid? || m.proto.NoProto?
  }

  function Marked(m: SipMessage, mark: Listener): SipMessage {
    m.(sentCode := m.sentCode + {mark})
  }

  /** The connection a WebSocket message goes to. */
  function Destination(x: Index, m: SipMessage): Option<ConnectionState> {
    if m.key != "" then x.Lookup(m.key)
    else if m.conn.Some? then Some(x.Peeked(m.conn.value).connections[m.conn.value])
    else None
  }

  /** WSListener::sendMessage. */
  function WsSend(x: Index, m: SipMessage, works: bool): Sent {
    if Skipped(m, ConnectionListener) then Sent(m, true, [])
    else if m.proto != Ws then Sent(Marked(m, ConnectionListener), false, [])
    else
      match Destination(x, m)
      case None => Sent(Marked(m, ConnectionListener), false, [])
      case Some(s) => Sent(Marked(m, ConnectionListener), works, [ToConnection(s)])
  }

  /** What sending does to the connection maps: looking the message's own connection up inserts it. */
  function WsTouched(x: Index, m: SipMessage): Index {
    if !Skipped(m, ConnectionListener) && m.proto == Ws && m.key == "" && m.conn.Some?
    then x.Peeked(m.conn.value) else x
  }

  /** SipServer::sendMessage: the socket of the message's transport or, when that slot is closed, the next
      listener; that case reports failure whatever the next listener says. */
  function SipSend(sockets: seq<int>, linked: bool, x: Index, m: SipMessage, works: bool): Sent
    requires |sockets| == 4
  {
    if Skipped(m, SocketListener) then Sent(m, true, [])
    else
      var marked := Marked(m, SocketListener);
      if sockets[Slot(m.proto)] == SOCKET_ERROR then
        if linked then WsSend(x, marked, works).(ok := false) else Sent(marked, false, [])
      else Sent(marked, works, [ToSocket(sockets[Slot(m.proto)], m.address)])
  }

  function SipTouched(sockets: seq<int>, linked: bool, x: Index, m: SipMessage): Index
    requires |sockets| == 4
  {
    if !Skipped(m, SocketListener) && sockets[Slot(m.proto)] == SOCKET_ERROR && linked
    then WsTouched(x, Marked(m, SocketListener)) else x
  }

  // ---------------------------------------------------------------- at most once

  datatype Net = Net(sockets: seq<int>, linked: bool, index: Index) {
    /** The slots of no transport and of WebSocket are never opened. */
    predicate Valid() {
      |sockets| == 4 && sockets[0] == SOCKET_ERROR && sockets[3] == SOCKET_ERROR
    }

    /** openSocket; `fd` is what the system returns, SOCKET_ERROR included. */
    function SocketOpened(p: Proto, fd: int): Net
      requires Valid()
    {
      if sockets[Slot(p)] == SOCKET_ERROR && (p.Udp? || p.Tcp?) then this.(sockets := sockets[Slot(p) := fd]) else this
    }

    function SocketClosed(p: Proto): Net
      requires Valid()
    {
      this.(sockets := sockets[Slot(p) := SOCKET_ERROR])
    }
  }

  /** Anything that can happen between two sends of the same message object, and the sends themselves. */
  datatype Happening =
    | BySocket(works: bool)
    | ByConnection(works: bool)
    | OpenSocket(p: Proto, fd: int)
    | CloseSocket(p: Proto)
    | Handler(e: Event)
    | Link(linked: bool)

  datatype Tally = Tally(net: Net, m: SipMessage, attempts: seq<Attempt>)

  function Next(t: Tally, h: Happening): (r: Tally)
    requires t.net.Valid()
    ensures r.net.Valid()
  {
    match h
    case BySocket(works) =>
      var s := SipSend(t.net.sockets, t.net.linked, t.net.index, t.m, works);
      Tally(t.net.(index := SipTouched(t.net.sockets, t.net.linked, t.net.index, t.m)), s.m, t.attempts + s.attempts)
    case ByConnection(works) =>
      var s := WsSend(t.net.index, t.m, works);
      Tally(t.net.(index := WsTouched(t.net.index, t.m)), s.m, t.attempts + s.attempts)
    case OpenSocket(p, fd) => t.(net := t.net.SocketOpened(p, fd))
    case CloseSocket(p) => t.(net := t.net.SocketClosed(p))
    case Handler(e) => t.(net := t.net.(index := Handled(t.net.index, e)))
    case Link(linked) => t.(net := t.net.(linked := linked))
  }

  function All(t: Tally, hs: seq<Happening>): (r: Tally)
    requires t.net.Valid()
    ensures r.net.Valid()
  {
    if hs == [] then t else Next(All(t, hs[..|hs| - 1]), hs[|hs| - 1])
  }

  /** A WebSocket message is only ever handed to a connection, any other only to a socket. */
  predicate RightTransport(m: SipMessage, a: Attempt) {
    a.ToConnection? <==> m.proto == Ws
  }

  /** At most one attempt, made by the right transport, and marked in the message. */
  ghost predicate Counted(t: Tally, m0: SipMessage) {
    && t.net.Valid()
    && t.m == m0.(sentCode := t.m.sentCode)
    && |t.attempts| <= 1
    && (forall a :: a in t.attempts ==> RightTransport(m0, a))
    && (t.attempts != [] ==> SentBy(t.m, if m0.proto == Ws then ConnectionListener else SocketListener))
  }

  lemma MarkedMarks(m: SipMessage)
    ensures SentBy(Marked(m, SocketListener), SocketListener)
            && SentBy(Marked(m, ConnectionListener), ConnectionListener)
    ensures SentBy(Marked(m, SocketListener), ConnectionListener) == SentBy(m, ConnectionListener)
    ensures SentBy(Marked(m, ConnectionListener), SocketListener) == SentBy(m, SocketListener)
  {
  }

  /** What one send does: it leaves the rest of the message alone, keeps the marks, and attempts at most once,
      by a transport not marked before and marked after. */
  ghost predicate SendsOnce(m: SipMessage, s: Sent) {
    && s.m == m.(sentCode := s.m.sentCode)
    && |s.attempts| <= 1
    && (SentBy(m, SocketListener) ==> SentBy(s.m, SocketListener))
       && (SentBy(m, ConnectionListener) ==> SentBy(s.m, ConnectionListener))
    && forall a :: a in s.attempts ==>
         var bit := if m.proto == Ws then ConnectionListener else SocketListener;
         RightTransport(m, a) && !SentBy(m, bit) && SentBy(s.m, bit)
  }

  lemma WsSendsOnce(x: Index, m: SipMessage, works: bool)
    ensures SendsOnce(m, WsSend(x, m, works))
  {
    hide Destination, SentBy, Marked;
    MarkedMarks(m);
    MarkedRest(m, ConnectionListener);
  }

  lemma MarkedRest(m: SipMessage, mark: Listener)
    ensures Marked(m, mark) == m.(sentCode := Marked(m, mark).sentCode) && m == m.(sentCode := m.sentCode)
  {
  }

  lemma SipSendsOnce(net: Net, m: SipMessage, works: bool)
    requires net.Valid()
    ensures SendsOnce(m, SipSend(net.sockets, net.linked, net.index, m, works))
  {
    hide Destination, SentBy, Marked, WsSend;
    MarkedMarks(m);
    MarkedRest(m, SocketListener);
    WsSendsOnce(net.index, Marked(m, SocketListener), works);
  }

  lemma SendCounted(t: Tally, m0: SipMessage, s: Sent, index: Index)
    requires Counted(t, m0) && SendsOnce(t.m, s)
    ensures Counted(Tally(t.net.(index := index), s.m, t.attempts + s.attempts), m0)
  {
    hide SentBy;
    if s.attempts != [] {
      assert s.attempts[0] in s.attempts;
      assert t.attempts + s.attempts == s.attempts;
    } else {
      assert t.attempts + s.attempts == t.attempts;
    }
  }

  lemma NextCounted(t: Tally, h: Happening, m0: SipMessage)
    requires Counted(t, m0)
    ensures Counted(Next(t, h), m0)
  {
    hide WsSend, SipSend, SentBy, WsTouched, SipTouched, SendsOnce, RightTransport;
    match h
    case BySocket(works) =>
      SipSendsOnce(t.net, t.m, works);
      SendCounted(t, m0, SipSend(t.net.sockets, t.net.linked, t.net.index, t.m, works),
                  SipTouched(t.net.sockets, t.net.linked, t.net.index, t.m));
    case ByConnection(works) =>
      WsSendsOnce(t.net.index, t.m, works);
      SendCounted(t, m0, WsSend(t.net.index, t.m, works), WsTouched(t.net.index, t.m));
    case _ =>
  }

  /** However often one message object is sent through either listener, with sockets and connections opening
      and closing in between, it is handed to a transport at most once, and to the right one. */
  lemma {:induction false} AtMostOnce(net: Net, m: SipMessage, hs: seq<Happening>)
    requires net.Valid()
    ensures Counted(All(Tally(net, m, []), hs), m)
    decreases |hs|
  {
    hide Counted, Next;
    if hs == [] {
      StartCounted(net, m);
    } else {
      AtMostOnce(net, m, hs[..|hs| - 1]);
      NextCounted(All(Tally(net, m, []), hs[..|hs| - 1]), hs[|hs| - 1], m);
    }
  }

  lemma StartCounted(net: Net, m: SipMessage)
    requires net.Valid()
    ensures Counted(Tally(net, m, []), m)
  {
    assert m == m.(sentCode := m.sentCode);
  }

  // ---------------------------------------------------------------- exactly once

  /** There is a way out for the message. */
  predicate Deliverable(net: Net, m: SipMessage)
    requires net.Valid()
  {
    && !m.command.Invalid?
    && match m.proto
       case NoProto => false
       case Ws => Destination(net.index, m).Some?
       case _ => net.sockets[Slot(m.proto)] != SOCKET_ERROR
  }

  /** The hand-over a fresh message should get: to its connection or to the socket of its transport. */
  function Expected(net: Net, m: SipMessage): seq<Attempt>
    requires net.Valid()
  {
    if !Deliverable(net, m) then []
    else if m.proto == Ws then [ToConnection(Destination(net.index, m).value)]
    else [ToSocket(net.sockets[Slot(m.proto)], m.address)]
  }

  /** Sending a fresh message succeeds: there is nothing to send, or a transport that takes it. */
  predicate Passes(net: Net, m: SipMessage, works: bool)
    requires net.Valid()
  {
    m.command.Invalid? || m.proto.NoProto? || (Deliverable(net, m) && works)
  }

  /** doProcessMessage: the socket listener first. */
  function FromSocket(net: Net, m: SipMessage, works: bool): Sent
    requires net.Valid()
  {
    SipSend(net.sockets, net.linked, net.index, m, works)
  }

  /** The fallback of processMessage: the connection listener first, the other one when it fails. */
  function FromConnection(net: Net, m: SipMessage, works: bool): Sent
    requires net.Valid()
  {
    var s := WsSend(net.index, m, works);
    if s.ok then s
    else
      var f := SipSend(net.sockets, true, WsTouched(net.index, m), s.m, works);
      Sent(f.m, f.ok, s.attempts + f.attempts)
  }

  /** From either listener a fresh message is handed over as expected: to the one transport there is a way out
      by, once, and to none otherwise. */
  lemma ExactlyOnceWhenDeliverable(net: Net, m: SipMessage, works: bool)
    requires net.Valid() && net.linked && m.sentCode == {}
    ensures FromSocket(net, m, works).attempts == Expected(net, m)
    ensures FromConnection(net, m, works).attempts == Expected(net, m)
    ensures FromConnection(net, m, works).ok <==> Passes(net, m, works)
    ensures |Expected(net, m)| == if Deliverable(net, m) then 1 else 0
  {
    hide Destination, SentBy, Marked;
    Unmarked(m);
    MarkedMarks(m);
    MarkedMarks(Marked(m, ConnectionListener));
    MarkedRest(m, SocketListener);
    MarkedRest(m, ConnectionListener);
    MarkedRest(Marked(m, ConnectionListener), SocketListener);
    SameDestination(net.index, m);
  }

  lemma Unmarked(m: SipMessage)
    requires m.sentCode == {}
    ensures !SentBy(m, SocketListener) && !SentBy(m, ConnectionListener)
  {
  }

  /** Marks, and looking the own connection up, do not change where a message goes. */
  lemma SameDestination(x: Index, m: SipMessage)
    ensures Destination(x, Marked(m, SocketListener)) == Destination(x, m)
  {
  }

  /** A message for a user key goes to the connection the history gives that key. */
  lemma KeyedDelivery(net: Net, events: seq<Event>, m: SipMessage, h: Handle, works: bool)
    requires net.Valid() && net.linked && m.sentCode == {} && net.index == After(events) && Disciplined(events)
    requires !m.command.Invalid? && m.proto == Ws && m.key != "" && MostRecent(events, m.key, h)
    ensures var s := FromSocket(net, m, works);
            (s.attempts != [] <==> IsOpen(events, h)) &&
            (forall a :: a in s.attempts ==> a.ToConnection? && a.state.handle == Some(h))
  {
    hide Disciplined, MostRecent, IsOpen, After;
    hide SentBy, Marked;
    OpenLookup(events, m.key, h);
    Unmarked(m);
    MarkedMarks(m);
    MarkedRest(m, SocketListener);
  }

  /** One hand-over, to the connection of that handle. */
  predicate HandedTo(attempts: seq<Attempt>, h: Handle) {
    |attempts| == 1 && attempts[0].ToConnection? && attempts[0].state.handle == Some(h)
  }

  /** An answer goes back over the open connection its request came by exactly when it carries no key, or the key is
      one last assigned to that connection; any other key takes it elsewhere, or nowhere. */
  lemma AnswerGoesBack(net: Net, events: seq<Event>, h: Handle, r: SipMessage)
    requires net.Valid() && net.index == After(events) && Disciplined(events) && IsOpen(events, h)
    requires !r.command.Invalid? && r.proto == Ws && r.conn == Some(h)
    ensures HandedTo(Expected(net, r), h) <==> r.key == "" || MostRecent(events, r.key, h)
  {
    hide IsOpen, MostRecent, After, Disciplined;
    OpenState(events, h);
    if r.key != "" {
      if MostRecent(events, r.key, h) {
        OpenLookup(events, r.key, h);
      } else if After(events).Lookup(r.key).Some? {
        FoundHandle(events, r.key);
      }
    }
  }
}
