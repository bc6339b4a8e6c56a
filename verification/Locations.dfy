/** Contact locations and the location list of an address (SipLocation.cpp; the list operations of
    SipAddress.cpp). */
module Locations {
  import opened Text

  datatype Proto = NoProto | Udp | Tcp | Ws
  datatype Prefix = NoPrefix | SipPrefix | SipsPrefix | WsPrefix | WssPrefix

  function ProtoName(p: Proto): string {
    match p
    case NoProto => ""
    case Udp => "udp"
    case Tcp => "tcp"
    case Ws => "ws"
  }

  function ParseProto(s: string): Proto {
    if s == "udp" then Udp else if s == "tcp" then Tcp else if s == "ws" then Ws else NoProto
  }

  datatype SipLocation = SipLocation(
    proto: Proto, prefix: Prefix, host: string, port: Int32, tag: string, line: string, rinstance: string,
    expire: Int32, registered: Int64)
  {
    predicate IsExpired(since: int) {
      registered + expire < since
    }
  }

  /** What the default constructor builds, and getLocation pushes when nothing is live. */
  const PLACEHOLDER := SipLocation(NoProto, NoPrefix, "", 0, "", "", "", 0, 0)

  /** Erase-remove of the expired locations. */
  function Clean(ls: seq<SipLocation>, since: int): (r: seq<SipLocation>)
    ensures forall l :: l in r ==> l in ls && !l.IsExpired(since)
  {
    if ls == [] then []
    else if ls[0].IsExpired(since) then Clean(ls[1..], since)
    else [ls[0]] + Clean(ls[1..], since)
  }

  predicate Same(search: SipLocation, it: SipLocation) {
    && (search.proto == NoProto || (it.proto == search.proto && it.prefix == search.prefix && it.host == search.host
                                    && it.port == search.port && it.tag == search.tag))
    && (search.line == "" || it.line == search.line)
    && (search.rinstance == "" || it.rinstance == search.rinstance)
  }

  /** find_if: the first match, or the length of the list. */
  function FindSame(ls: seq<SipLocation>, search: SipLocation): (r: nat)
    ensures r <= |ls| && (r < |ls| ==> Same(search, ls[r])) && forall i :: 0 <= i < r ==> !Same(search, ls[i])
  {
    if ls == [] || Same(search, ls[0]) then 0 else 1 + FindSame(ls[1..], search)
  }

  function Erase(ls: seq<SipLocation>, i: nat): seq<SipLocation> {
    if i < |ls| then ls[..i] + ls[i + 1..] else ls
  }

  /** getLocation: purge, then make sure there is a first element to point at. */
  function Located(ls: seq<SipLocation>, now: int): (r: seq<SipLocation>)
    ensures r != []
  {
    if Clean(ls, now) == [] then [PLACEHOLDER] else Clean(ls, now)
  }

  /** The location rmLocation is asked to erase: a reference to the first slot of the list itself, or some
      other object.  The slot is read after the purge, when another location may have moved into it. */
  datatype Target = FirstSlot | Other(location: SipLocation)

  function Removed(ls: seq<SipLocation>, target: Target, dt: int): seq<SipLocation> {
    var live := Clean(ls, dt);
    if live == [] then []
    else Erase(live, FindSame(live, if target.FirstSlot? then live[0] else target.location))
  }

  function Put(ls: seq<SipLocation>, value: SipLocation, dt: Int64): seq<SipLocation> {
    var live := Clean(ls, dt);
    Erase(live, FindSame(live, value)) + [value.(registered := dt)]
  }

  // ---------------------------------------------------------------- purging

  lemma {:induction false} CleanAppend(a: seq<SipLocation>, b: seq<SipLocation>, t: int)
    ensures Clean(a + b, t) == Clean(a, t) + Clean(b, t)
  {
    if a == [] {
      assert a + b == b;
    } else {
      assert (a + b)[1..] == a[1..] + b;
      CleanAppend(a[1..], b, t);
    }
  }

  /** Every unexpired location is kept, at the place given by how many unexpired ones stand before it. */
  lemma CleanKeeps(ls: seq<SipLocation>, t: int, i: nat)
    requires i < |ls| && !ls[i].IsExpired(t)
    ensures var place := |Clean(ls[..i], t)|; place < |Clean(ls, t)| && Clean(ls, t)[place] == ls[i]
  {
    hide Clean;
    assert ls == ls[..i] + (ls[i..i + 1] + ls[i + 1..]);
    CleanAppend(ls[..i], ls[i..i + 1] + ls[i + 1..], t);
    CleanAppend(ls[i..i + 1], ls[i + 1..], t);
    CleanOne(ls[i..i + 1], t);
  }

  /** Nothing else is kept: every place is that of an unexpired location of the list. */
  lemma {:induction false} CleanKeepsOnly(ls: seq<SipLocation>, t: int, place: nat) returns (i: nat)
    requires place < |Clean(ls, t)|
    ensures i < |ls| && !ls[i].IsExpired(t) && |Clean(ls[..i], t)| == place && Clean(ls, t)[place] == ls[i]
    decreases |ls|
  {
    var n := |ls| - 1;
    assert ls == ls[..n] + ls[n..];
    CleanAppend(ls[..n], ls[n..], t);
    CleanOne(ls[n..], t);
    if place < |Clean(ls[..n], t)| {
      i := CleanKeepsOnly(ls[..n], t, place);
      assert ls[..n][..i] == ls[..i];
    } else {
      i := n;
    }
  }

  lemma CleanOne(ls: seq<SipLocation>, t: int)
    requires |ls| == 1
    ensures Clean(ls, t) == if ls[0].IsExpired(t) then [] else ls
  {
  }

  lemma {:induction false} CleanClean(ls: seq<SipLocation>, s: int, t: int)
    requires s <= t
    ensures Clean(Clean(ls, s), t) == Clean(ls, t)
  {
    if ls != [] {
      CleanClean(ls[1..], s, t);
      if !ls[0].IsExpired(s) {
        assert Clean(ls, s)[1..] == Clean(ls[1..], s);
      }
    }
  }

  lemma {:induction false} CleanLive(ls: seq<SipLocation>, t: int)
    requires forall l :: l in ls ==> !l.IsExpired(t)
    ensures Clean(ls, t) == ls
  {
    if ls != [] {
      CleanLive(ls[1..], t);
    }
  }

  /** Looking a location up, with its purge and its placeholder, changes nothing that is live at or after
      the time of the lookup. */
  lemma LookupKeepsLive(ls: seq<SipLocation>, now: int, t: int)
    requires 0 < now <= t
    ensures Clean(Located(ls, now), t) == Clean(ls, t) && Clean(Clean(ls, now), t) == Clean(ls, t)
  {
    CleanClean(ls, now, t);
    if Clean(ls, now) == [] {
      assert PLACEHOLDER.IsExpired(t);
      assert Located(ls, now)[1..] == [];
    }
  }

  /** The purge at time zero, done when the tag is printed, drops nothing that a lookup returned. */
  lemma PurgeAtZeroIsIdle(ls: seq<SipLocation>, now: int)
    requires 0 < now
    ensures Clean(Located(ls, now), 0) == Located(ls, now)
  {
    CleanLive(Located(ls, now), 0);
  }

  // ---------------------------------------------------------------- binding and unbinding

  /** The writes of updateLocation through the reference to the first location. */
  function Bound(l: SipLocation, proto: Proto, host: string, port: Port, expire: Int32, now: Int64): SipLocation {
    l.(expire := expire, port := port, proto := proto, host := host, registered := now, prefix := SipPrefix)
  }

  function Rebound(ls: seq<SipLocation>, proto: Proto, host: string, port: Port, expire: Int32,
                   now: Int64): seq<SipLocation> {
    var located := Located(ls, now);
    [Bound(located[0], proto, host, port, expire, now)] + located[1..]
  }

  function Unbound(ls: seq<SipLocation>, expire: Int32, now: Int64): seq<SipLocation> {
    var located := Located(ls, now);
    Removed([located[0].(expire := expire)] + located[1..], FirstSlot, now)
  }

  lemma FirstMatchesItself(ls: seq<SipLocation>)
    requires ls != []
    ensures FindSame(ls, ls[0]) == 0
  {
  }

  /** What unregistering leaves: the first live binding goes, and with it the second one whenever the first
      binding's new deadline already lies before `now`, because the purge has then moved the second one into
      the slot the reference names. */
  lemma UnboundExactly(ls: seq<SipLocation>, expire: Int32, now: Int64)
    requires 0 < now && expire <= 0
    ensures var live := Clean(ls, now);
            Unbound(ls, expire, now) ==
              if |live| <= 1 then []
              else if live[0].registered + expire < now then live[2..] else live[1..]
  {
    var live, located := Clean(ls, now), Located(ls, now);
    var edited := [located[0].(expire := expire)] + located[1..];
    assert edited == [edited[0]] + edited[1..];
    assert edited[1..] == located[1..];
    CleanLive(live, now);
    if live == [] {
      assert Clean(edited, now) == [];
    } else {
      CleanLive(live[1..], now);
      var left := Clean(edited, now);
      assert left == if edited[0].IsExpired(now) then live[1..] else [edited[0]] + live[1..];
      if left != [] {
        FirstMatchesItself(left);
      }
    }
  }

  /** Unregistering removes exactly the first live binding if and only if there is at most one, or its
      shortened life has not already run out. */
  lemma UnregisterRemovesOnlyOne(ls: seq<SipLocation>, expire: Int32, now: Int64)
    requires 0 < now && expire <= 0 && Clean(ls, now) != []
    ensures Unbound(ls, expire, now) == Clean(ls, now)[1..] <==>
            |Clean(ls, now)| == 1 || Clean(ls, now)[0].registered + expire >= now
  {
    UnboundExactly(ls, expire, now);
  }

  /** Registering replaces the first live binding, keeps the others, and lives until now + expire. */
  lemma ReboundLive(ls: seq<SipLocation>, proto: Proto, host: string, port: Port, expire: Int32, now: Int64, t: int)
    requires 0 < now <= t && 0 < expire
    ensures var live := Clean(ls, now);
            var l := Bound(Located(ls, now)[0], proto, host, port, expire, now);
            Clean(Rebound(ls, proto, host, port, expire, now), t) ==
              (if t <= now + expire then [l] else []) + Clean(if live == [] then [] else live[1..], t)
  {
    var located := Located(ls, now);
    var l := Bound(located[0], proto, host, port, expire, now);
    CleanAppend([l], located[1..], t);
    assert [l][1..] == [];
  }
}
