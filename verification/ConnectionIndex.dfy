/** The two connection maps of the WebSocket listener against the history of its handlers
    (WSListener.cpp, WSListener.h). */
module ConnectionIndex {
  import opened Wrappers
  import opened Messages

  /** What is kept for a connection: its user key, the handle it was opened with, and its kind.  A state that
      operator[] inserted by default has no handle. */
  datatype ConnectionState = ConnectionState(key: string, handle: Option<Handle>, tls: bool)

  const DEFAULT_STATE := ConnectionState("", None, false)

  datatype Index = Index(connections: map<Handle, ConnectionState>, users: map<string, Handle>) {
    /** insert, which keeps an entry that is already there. */
    function Opened(h: Handle, tls: bool): Index {
      if h in connections then this else this.(connections := connections[h := ConnectionState("", Some(h), tls)])
    }

    function Closed(h: Handle): Index {
      this.(connections := connections - {h})
    }

    /** operator[], which inserts a default entry when there is none. */
    function Peeked(h: Handle): Index {
      if h in connections then this else this.(connections := connections[h := DEFAULT_STATE])
    }

    function Assigned(h: Handle, key: string): Index {
      var p := Peeked(h);
      Index(p.connections[h := p.connections[h].(key := key)], users[key := h])
    }

    /** getState by user key. */
    function Lookup(key: string): Option<ConnectionState> {
      if key in users && users[key] in connections then Some(connections[users[key]]) else None
    }
  }

  datatype Event = Open(h: Handle, tls: bool) | Close(h: Handle) | Assign(h: Handle, key: string) | Peek(h: Handle)

  /** The maps after one handler call. */
  function Handled(x: Index, e: Event): Index {
    match e
    case Open(h, tls) => x.Opened(h, tls)
    case Close(h) => x.Closed(h)
    case Assign(h, key) => x.Assigned(h, key)
    case Peek(h) => x.Peeked(h)
  }

  function After(events: seq<Event>): Index {
    if events == [] then Index(map[], map[]) else Handled(After(events[..|events| - 1]), events[|events| - 1])
  }

  // ---------------------------------------------------------------- history

  /** No close of the handle at or behind position `i`. */
  predicate NoCloseFrom(events: seq<Event>, h: Handle, i: nat) {
    forall j :: i <= j < |events| ==> events[j] != Close(h)
  }

  predicate MakesEntry(e: Event, h: Handle) {
    !e.Close? && e.h == h
  }

  /** Some event since the handle's last close made an entry for it. */
  predicate Held(events: seq<Event>, h: Handle) {
    exists i :: 0 <= i < |events| && MakesEntry(events[i], h) && NoCloseFrom(events, h, i)
  }

  predicate OpenAt(events: seq<Event>, h: Handle, i: nat)
    requires i < |events|
  {
    events[i].Open? && events[i].h == h && NoCloseFrom(events, h, i)
  }

  /** The connection is open: it was opened, and not closed since. */
  predicate IsOpen(events: seq<Event>, h: Handle) {
    exists i :: 0 <= i < |events| && OpenAt(events, h, i)
  }

  /** The entry was made by an open: nothing touched the handle between its last close and that open. */
  predicate Genuine(events: seq<Event>, h: Handle) {
    exists i :: 0 <= i < |events| && OpenAt(events, h, i) && !Held(events[..i], h)
  }

  predicate AssignedAt(events: seq<Event>, key: string, h: Handle, i: nat)
    requires i < |events|
  {
    events[i] == Assign(h, key) && forall j :: i < j < |events| ==> !(events[j].Assign? && events[j].key == key)
  }

  /** The handle most recently assigned the key. */
  predicate MostRecent(events: seq<Event>, key: string, h: Handle) {
    exists i :: 0 <= i < |events| && AssignedAt(events, key, h, i)
  }

  // ---------------------------------------------------------------- one more event

  lemma HeldStep(events: seq<Event>, e: Event, h: Handle)
    ensures Held(events + [e], h) <==> MakesEntry(e, h) || (Held(events, h) && e != Close(h))
  {
    var all, n := events + [e], |events|;
    if Held(all, h) && !MakesEntry(e, h) {
      var i :| 0 <= i < |all| && MakesEntry(all[i], h) && NoCloseFrom(all, h, i);
      assert i < n && all[n] == e;
      assert forall j :: i <= j < n ==> events[j] == all[j];
      assert MakesEntry(events[i], h) && NoCloseFrom(events, h, i);
    }
    if MakesEntry(e, h) {
      assert MakesEntry(all[n], h) && NoCloseFrom(all, h, n);
    } else if Held(events, h) && e != Close(h) {
      var i :| 0 <= i < n && MakesEntry(events[i], h) && NoCloseFrom(events, h, i);
      assert MakesEntry(all[i], h) && NoCloseFrom(all, h, i);
    }
  }

  lemma GenuineStep(events: seq<Event>, e: Event, h: Handle)
    ensures Genuine(events + [e], h) <==>
            (e.Open? && e.h == h && !Held(events, h)) || (Genuine(events, h) && e != Close(h))
  {
    hide Held;
    var all, n := events + [e], |events|;
    assert all[..n] == events;
    forall i | 0 <= i < n ensures all[..i] == events[..i] {
    }
    if Genuine(all, h) {
      var i :| 0 <= i < |all| && OpenAt(all, h, i) && !Held(all[..i], h);
      assert all[n] != Close(h);
      if i < n {
        assert forall j :: i <= j < n ==> events[j] == all[j];
        assert OpenAt(events, h, i) && !Held(events[..i], h);
      }
    }
    if e.Open? && e.h == h && !Held(events, h) {
      assert OpenAt(all, h, n);
    } else if Genuine(events, h) && e != Close(h) {
      var i :| 0 <= i < n && OpenAt(events, h, i) && !Held(events[..i], h);
      assert OpenAt(all, h, i);
    }
  }

  lemma MostRecentStep(events: seq<Event>, e: Event, key: string, h: Handle)
    ensures MostRecent(events + [e], key, h) <==>
            if e.Assign? && e.key == key then e.h == h else MostRecent(events, key, h)
  {
    var all, n := events + [e], |events|;
    if MostRecent(all, key, h) {
      var i :| 0 <= i < |all| && AssignedAt(all, key, h, i);
      if i < n {
        assert !(all[n].Assign? && all[n].key == key);
        assert forall j :: i <= j < n ==> events[j] == all[j];
        assert AssignedAt(events, key, h, i);
      }
    }
    if e.Assign? && e.key == key {
      if e.h == h {
        assert AssignedAt(all, key, h, n);
      }
    } else if MostRecent(events, key, h) {
      var i :| 0 <= i < n && AssignedAt(events, key, h, i);
      assert AssignedAt(all, key, h, i);
    }
  }

  // ---------------------------------------------------------------- agreement

  /** The maps say what history says. */
  ghost predicate Agrees(x: Index, events: seq<Event>) {
    && (forall h: Handle :: h in x.connections <==> Held(events, h))
    && (forall h: Handle :: h in x.connections ==>
       x.connections[h].handle == if Genuine(events, h) then Some(h) else None)
    && (forall key: string, h: Handle :: key in x.users && x.users[key] == h <==> MostRecent(events, key, h))
  }

  lemma {:induction false} IndexAgrees(events: seq<Event>)
    ensures Agrees(After(events), events)
    decreases |events|
  {
    hide Held, Genuine, MostRecent;
    if events == [] {
      EmptyHistory();
    } else {
      var before, e := events[..|events| - 1], events[|events| - 1];
      IndexAgrees(before);
      assert events == before + [e];
      AgreesStep(After(before), before, e);
    }
  }

  lemma EmptyHistory()
    ensures Agrees(Index(map[], map[]), [])
  {
  }

  lemma GenuineIsHeld(events: seq<Event>, h: Handle)
    ensures Genuine(events, h) ==> Held(events, h)
  {
    if Genuine(events, h) {
      var i :| 0 <= i < |events| && OpenAt(events, h, i) && !Held(events[..i], h);
      assert MakesEntry(events[i], h) && NoCloseFrom(events, h, i);
    }
  }

  lemma AgreesStep(x: Index, events: seq<Event>, e: Event)
    requires Agrees(x, events)
    ensures Agrees(Handled(x, e), events + [e])
  {
    hide Held, Genuine, MostRecent;
    forall h: Handle ensures Held(events + [e], h) <==> MakesEntry(e, h) || (Held(events, h) && e != Close(h)) {
      HeldStep(events, e, h);
    }
    forall h: Handle
      ensures Genuine(events + [e], h) <==>
              (e.Open? && e.h == h && !Held(events, h)) || (Genuine(events, h) && e != Close(h))
    {
      GenuineStep(events, e, h);
    }
    forall h: Handle ensures Genuine(events, h) ==> Held(events, h) {
      GenuineIsHeld(events, h);
    }
    forall key: string, h: Handle
      ensures MostRecent(events + [e], key, h) <==>
              if e.Assign? && e.key == key then e.h == h else MostRecent(events, key, h)
    {
      MostRecentStep(events, e, key, h);
    }
  }

  /** Over any sequence of handler calls, getState(key) succeeds exactly when the handle most recently assigned
      that key has an entry, and the state it returns carries that handle exactly when the entry was made by an
      open; the user map may name closed connections, but they are never found. */
  lemma LookupAgreesWithHistory(events: seq<Event>, key: string)
    ensures After(events).Lookup(key).Some? <==> exists h: Handle :: MostRecent(events, key, h) && Held(events, h)
    ensures forall h: Handle :: MostRecent(events, key, h) && Held(events, h) ==>
      (After(events).Lookup(key).value.handle == Some(h) <==> Genuine(events, h))
  {
    hide Held, Genuine, MostRecent, After;
    IndexAgrees(events);
    var x := After(events);
    if x.Lookup(key).Some? {
      assert MostRecent(events, key, x.users[key]) && Held(events, x.users[key]);
    }
  }

  /** Keys are assigned, and connections looked at, only while they are open. */
  ghost predicate Disciplined(events: seq<Event>) {
    forall i :: 0 <= i < |events| && (events[i].Assign? || events[i].Peek?) ==> IsOpen(events[..i], events[i].h)
  }

  lemma OpenStep(events: seq<Event>, e: Event, h: Handle)
    ensures IsOpen(events + [e], h) <==> (e.Open? && e.h == h) || (IsOpen(events, h) && e != Close(h))
  {
    var all, n := events + [e], |events|;
    if IsOpen(all, h) {
      var i :| 0 <= i < |all| && OpenAt(all, h, i);
      assert all[n] != Close(h);
      if i < n {
        assert forall j :: i <= j < n ==> events[j] == all[j];
        assert OpenAt(events, h, i);
      }
    }
    if e.Open? && e.h == h {
      assert OpenAt(all, h, n);
    } else if IsOpen(events, h) && e != Close(h) {
      var i :| 0 <= i < n && OpenAt(events, h, i);
      assert OpenAt(all, h, i);
    }
  }

  /** In a disciplined history every entry belongs to an open connection and was made by its open. */
  lemma {:induction false} DisciplinedEntries(events: seq<Event>, h: Handle)
    requires Disciplined(events)
    ensures Held(events, h) <==> IsOpen(events, h)
    ensures Held(events, h) ==> Genuine(events, h)
    decreases |events|
  {
    hide Held, Genuine, IsOpen;
    if events != [] {
      var n := |events| - 1;
      var before, e := events[..n], events[n];
      assert events == before + [e];
      DisciplinedPrefix(events);
      DisciplinedEntries(before, h);
      HeldStep(before, e, h);
      GenuineStep(before, e, h);
      OpenStep(before, e, h);
    } else {
      NothingOpen(h);
    }
  }

  lemma NothingOpen(h: Handle)
    ensures !Held([], h) && !IsOpen([], h)
  {
  }

  lemma DisciplinedPrefix(events: seq<Event>)
    requires Disciplined(events) && events != []
    ensures Disciplined(events[..|events| - 1])
    ensures var e := events[|events| - 1]; e.Assign? || e.Peek? ==> IsOpen(events[..|events| - 1], e.h)
  {
    hide IsOpen;
    var before := events[..|events| - 1];
    forall i | 0 <= i < |before| && (before[i].Assign? || before[i].Peek?) ensures IsOpen(before[..i], before[i].h) {
      assert before[..i] == events[..i];
    }
  }

  /** With keys assigned to open connections only, getState(key) succeeds exactly when the handle most recently
      assigned that key is open now, and it returns the state opened with that handle. */
  lemma OpenLookup(events: seq<Event>, key: string, h: Handle)
    requires Disciplined(events) && MostRecent(events, key, h)
    ensures After(events).Lookup(key).Some? <==> IsOpen(events, h)
    ensures IsOpen(events, h) ==> After(events).Lookup(key).value.handle == Some(h)
  {
    hide Held, Genuine, IsOpen, MostRecent, After, Disciplined;
    IndexAgrees(events);
    DisciplinedEntries(events, h);
  }

  // ---------------------------------------------------------------- one more assignment

  /** Assigning a key to an open connection keeps to the discipline and the connection open, and makes it the most
      recent one for that key alone. */
  lemma AssignedMore(events: seq<Event>, h: Handle, key: string)
    requires Disciplined(events) && IsOpen(events, h)
    ensures var more := events + [Assign(h, key)];
            Disciplined(more) && IsOpen(more, h) && After(more) == After(events).Assigned(h, key)
    ensures forall k: string {:trigger MostRecent(events, k, h)} ::
      MostRecent(events + [Assign(h, key)], k, h) <==> k == key || MostRecent(events, k, h)
  {
    hide IsOpen, MostRecent;
    var more := events + [Assign(h, key)];
    assert more[..|more| - 1] == events;
    OpenStep(events, Assign(h, key), h);
    forall i | 0 <= i < |more| && (more[i].Assign? || more[i].Peek?) ensures IsOpen(more[..i], more[i].h) {
      if i < |events| {
        assert more[..i] == events[..i] && more[i] == events[i];
      } else {
        assert more[..i] == events;
      }
    }
    forall k: string ensures MostRecent(more, k, h) <==> k == key || MostRecent(events, k, h) {
      MostRecentStep(events, Assign(h, key), k, h);
    }
  }

  /** In a disciplined history every state found by a key is that of the handle last assigned it. */
  lemma FoundHandle(events: seq<Event>, key: string)
    requires Disciplined(events) && After(events).Lookup(key).Some?
    ensures exists h: Handle :: MostRecent(events, key, h) && After(events).Lookup(key).value.handle == Some(h)
  {
    hide IsOpen, MostRecent, After, Disciplined, Held, Genuine;
    IndexAgrees(events);
    var h := After(events).users[key];
    DisciplinedEntries(events, h);
    assert MostRecent(events, key, h);
  }

  /** The state of an open connection carries its handle. */
  lemma OpenState(events: seq<Event>, h: Handle)
    requires Disciplined(events) && IsOpen(events, h)
    ensures h in After(events).connections && After(events).connections[h].handle == Some(h)
  {
    hide IsOpen, After, Disciplined, Held, Genuine;
    IndexAgrees(events);
    DisciplinedEntries(events, h);
  }
}
