/** What a binding is, told from the events alone: the last one that touched the account decides (section 10.3 of
    RFC 3261; SipDialog.cpp, SipRegistry.cpp). */
module BindingHistory {
  import opened Wrappers
  import opened Text
  import opened Locations
  import opened AddressText
  import opened AccountMap
  import opened Proxy
  import opened Registrar
  import opened RegistrarRuns
  import Json

  /** The binding a lookup of the key at time `t` finds. */
  function BoundAt(accounts: Accounts, key: string, t: int): Option<Binding> {
    if LiveAt(accounts, key, t) then Some(BindingOf(Clean(accounts[key].locations, t)[0])) else None
  }

  function BroughtIn(items: seq<Json.Json>): Accounts {
    Json.PutAll(map[], items)
  }

  /** The event replaces or ends the binding of the key: a granted update of it, provisioning or loading of its
      account, or the clearing of the list.  Sweeping touches nothing. */
  predicate Touches(before: Accounts, e: Timed, key: string) {
    match e.event
    case Received(m, _, _, _) => UpdateGranted(e.env, e.config, before, m, e.now) && ToKey(m) == key && key in before
    case Provisioned(a) => a.Key() == key
    case Restored(items) => key in BroughtIn(items)
    case Cleared => true
    case Swept => false
  }

  /** The binding such an event leaves, seen at time `t`. */
  function Outcome(e: Timed, key: string, t: int): Option<Binding> {
    match e.event
    case Received(m, _, _, _) =>
      if m.Expires() > 0 && t <= e.now + m.Expires() then
        Some(Binding(m.proto, m.address.ip, m.address.port, e.now + m.Expires()))
      else None
    case Provisioned(a) => BoundAt(map[key := a], key, t)
    case Restored(items) => BoundAt(BroughtIn(items), key, t)
    case Cleared | Swept => None
  }

  // ---------------------------------------------------------------- one event

  function SpecAt(s: Bindings, key: string, t: int): Option<Binding> {
    if s.Live(key, t) then Some(s.bound[key]) else None
  }

  lemma ShownAt(accounts: Accounts, s: Bindings, key: string, since: int, t: int)
    requires Implements(accounts, s, since) && since <= t
    ensures BoundAt(accounts, key, t) == SpecAt(s, key, t)
  {
    hide Clean, Implements, Shows, LiveAt;
    Later(accounts, s, since, t);
    ShownLive(accounts, s, key, t);
    if LiveAt(accounts, key, t) {
      ShownBinding(accounts, s, key, t);
    }
  }

  lemma MessageHistory(accounts: Accounts, e: Timed, key: string, t: int)
    requires Single(accounts) && e.event.Received? && e.now <= t
    ensures BoundAt(Happen(accounts, e), key, t)
            == if Touches(accounts, e, key) then Outcome(e, key, t) else BoundAt(accounts, key, t)
  {
    hide MessageStep, UpdateGranted, SpecGranted, Clean, KeyOf, ParseInt, Implements, BoundAt, Abstraction, Single;
    var m, s := e.event.m, Abstraction(accounts, e.now);
    AbstractionImplements(accounts, e.now);
    MessageRefines(e.env, e.config, accounts, s, m, e.event.tag, e.event.svc, e.event.nonce, e.now, e.now);
    SpecGrantedIff(e.env, e.config, accounts, s, m, e.now);
    SameAccounts(accounts, s, e.now);
    ShownAt(accounts, s, key, e.now, t);
    ShownAt(Happen(accounts, e), SpecStep(e.env, e.config, s, m, e.now), key, e.now, t);
  }

  lemma SweepHistory(accounts: Accounts, now: int, key: string, t: int)
    requires now <= t
    ensures BoundAt(SweptAccounts(accounts, now), key, t) == BoundAt(accounts, key, t)
  {
    hide Clean;
    if key in accounts && Clean(accounts[key].locations, now) == [] {
      CleanClean(accounts[key].locations, now, t);
      EmptyClean(t);
    }
  }

  lemma {:induction false} RestoreHistory(accounts: Accounts, items: seq<Json.Json>, key: string)
    ensures var after, own := Json.PutAll(accounts, items), BroughtIn(items);
            (key in after <==> key in own || key in accounts) &&
            (key in after ==> after[key] == if key in own then own[key] else accounts[key])
    decreases |items|
  {
    hide Json.AddressOf;
    if items != [] {
      RestoreHistory(accounts, items[..|items| - 1], key);
    }
  }

  /** After one event the binding is the one the event leaves if it touches the account, and the old one if not. */
  lemma EventHistory(accounts: Accounts, e: Timed, key: string, t: int)
    requires Single(accounts) && e.now <= t
    ensures BoundAt(Happen(accounts, e), key, t)
            == if Touches(accounts, e, key) then Outcome(e, key, t) else BoundAt(accounts, key, t)
  {
    hide MessageStep, UpdateGranted, Clean, Single;
    match e.event
    case Received(_, _, _, _) => MessageHistory(accounts, e, key, t);
    case Provisioned(a) =>
    case Restored(items) => RestoreHistory(accounts, items, key);
    case Cleared =>
    case Swept => SweepHistory(accounts, e.now, key, t);
  }

  // ---------------------------------------------------------------- runs

  predicate TouchedAt(start: Accounts, events: seq<Timed>, key: string, i: nat)
    requires i < |events|
  {
    Touches(Run(start, events[..i]), events[i], key)
  }

  predicate LastTouch(start: Accounts, events: seq<Timed>, key: string, i: nat) {
    && i < |events| && TouchedAt(start, events, key, i)
    && forall j :: i < j < |events| ==> !TouchedAt(start, events, key, j)
  }

  lemma RunStaysSingle(start: Accounts, events: seq<Timed>, since: int)
    requires Single(start) && WellTimed(events, since)
    ensures Single(Run(start, events))
  {
    hide *;
    AbstractionImplements(start, since);
    RunRefines(start, Abstraction(start, since), events, since);
    ImplementsIsSingle(Run(start, events), SpecRun(Abstraction(start, since), events),
                       if events == [] then since else events[|events| - 1].now);
  }

  lemma RunStep(start: Accounts, events: seq<Timed>, since: int, key: string, t: int)
    requires Single(start) && WellTimed(events, since) && events != [] && events[|events| - 1].now <= t
    ensures var n := |events| - 1;
            WellTimed(events[..n], since) &&
            BoundAt(Run(start, events), key, t)
            == if TouchedAt(start, events, key, n) then Outcome(events[n], key, t)
              else BoundAt(Run(start, events[..n]), key, t)
  {
    hide Touches, Outcome, BoundAt, Happen, Single, BringsSingle;
    var n := |events| - 1;
    RunStaysSingle(start, events[..n], since);
    EventHistory(Run(start, events[..n]), events[n], key, t);
  }

  lemma LastTouchStep(start: Accounts, events: seq<Timed>, key: string, i: nat)
    requires events != [] && LastTouch(start, events, key, i)
    ensures var n := |events| - 1;
            if TouchedAt(start, events, key, n) then i == n else i < n && LastTouch(start, events[..n], key, i)
  {
    hide Touches, Run;
    var n := |events| - 1;
    if i < n {
      assert !TouchedAt(start, events, key, n);
      forall j | 0 <= j < n ensures events[..n][..j] == events[..j] {
      }
      forall j | 0 <= j < n ensures TouchedAt(start, events[..n], key, j) <==> TouchedAt(start, events, key, j) {
        assert events[..n][..j] == events[..j];
      }
    }
  }

  predicate Untouched(start: Accounts, events: seq<Timed>, key: string) {
    forall j :: 0 <= j < |events| ==> !TouchedAt(start, events, key, j)
  }

  lemma UntouchedStep(start: Accounts, events: seq<Timed>, key: string)
    requires events != [] && Untouched(start, events, key)
    ensures !TouchedAt(start, events, key, |events| - 1) && Untouched(start, events[..|events| - 1], key)
  {
    hide Touches, Run;
    var n := |events| - 1;
    forall j | 0 <= j < n ensures !TouchedAt(start, events[..n], key, j) {
      assert events[..n][..j] == events[..j];
      assert !TouchedAt(start, events, key, j);
    }
  }

  /** The binding found after any run, at any time from its last event on: what the last event that touched the
      account left, or what was there at the start if none did. */
  lemma {:induction false} RunHistory(start: Accounts, events: seq<Timed>, since: int, key: string, t: int)
    requires Single(start) && WellTimed(events, since) && forall i :: 0 <= i < |events| ==> events[i].now <= t
    ensures forall i :: 0 <= i < |events| && LastTouch(start, events, key, i) ==>
      BoundAt(Run(start, events), key, t) == Outcome(events[i], key, t)
    ensures Untouched(start, events, key) ==> BoundAt(Run(start, events), key, t) == BoundAt(start, key, t)
    decreases |events|
  {
    hide TouchedAt, Touches, Outcome, BoundAt, Happen, Single, WellTimed, LastTouch, Untouched, Run;
    if events == [] {
      NoEvents(start);
    } else {
      var before := events[..|events| - 1];
      RunStep(start, events, since, key, t);
      RunHistory(start, before, since, key, t);
      if Untouched(start, events, key) {
        UntouchedStep(start, events, key);
      }
      forall i | 0 <= i < |events| && LastTouch(start, events, key, i)
        ensures BoundAt(Run(start, events), key, t) == Outcome(events[i], key, t)
      {
        LastTouchStep(start, events, key, i);
      }
    }
  }

  lemma NoEvents(start: Accounts)
    ensures Run(start, []) == start
  {
  }

  /** In a life that starts empty and in which accounts come in without locations, a key is live exactly when the
      last event that touched it was a granted update whose positive expiry reaches the time asked about. */
  lemma LiveSinceLastUpdate(events: seq<Timed>, since: int, key: string, t: int)
    requires WellTimed(events, since) && forall i :: 0 <= i < |events| ==> events[i].now <= t
    requires forall i :: 0 <= i < |events| ==>
      !events[i].event.Restored? && (events[i].event.Provisioned? ==> events[i].event.a.locations == [])
    ensures LiveAt(Run(map[], events), key, t) <==>
            exists i: nat :: LastTouch(map[], events, key, i) && events[i].event.Received?
                        && events[i].event.m.Expires() > 0 && t <= events[i].now + events[i].event.m.Expires()
  {
    hide Run, Touches, Clean, ParseInt;
    RunHistory(map[], events, since, key, t);
    if Untouched(map[], events, key) {
      assert BoundAt(map[], key, t) == None;
    } else {
      var i := LastTouched(map[], events, key, |events|);
      assert BoundAt(Run(map[], events), key, t) == Outcome(events[i], key, t);
      if events[i].event.Provisioned? {
        EmptyClean(t);
      }
      forall k: nat | LastTouch(map[], events, key, k) ensures k == i {
        OneLastTouch(map[], events, key, i, k);
      }
    }
  }

  lemma OneLastTouch(start: Accounts, events: seq<Timed>, key: string, i: nat, k: nat)
    requires LastTouch(start, events, key, i) && LastTouch(start, events, key, k)
    ensures i == k
  {
    hide TouchedAt;
  }

  lemma {:induction false} LastTouched(start: Accounts, events: seq<Timed>, key: string, n: nat) returns (i: nat)
    requires n <= |events| && exists j :: 0 <= j < n && TouchedAt(start, events, key, j)
    requires forall j :: n <= j < |events| ==> !TouchedAt(start, events, key, j)
    ensures LastTouch(start, events, key, i)
    decreases n
  {
    hide TouchedAt;
    if TouchedAt(start, events, key, n - 1) {
      i := n - 1;
    } else {
      i := LastTouched(start, events, key, n - 1);
    }
  }
}
