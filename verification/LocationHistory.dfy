/** A location list driven by putLocation and rmLocation behaves like a set ordered by last use
    (SipAddress.cpp). */
module LocationHistory {
  import opened Text
  import opened Locations

  /** The seven fields that make two locations the same. */
  datatype Identity = Identity(proto: Proto, prefix: Prefix, host: string, port: Int32, tag: string, line: string,
    rinstance: string)

  function IdentityOf(l: SipLocation): Identity {
    Identity(l.proto, l.prefix, l.host, l.port, l.tag, l.line, l.rinstance)
  }

  /** A location that names a transport, a line and an instance, so that matching it compares all seven fields. */
  predicate Complete(l: SipLocation) {
    l.proto != NoProto && l.line != "" && l.rinstance != ""
  }

  datatype Op = PutOp(l: SipLocation) | RmOp(l: SipLocation)
  datatype TimedOp = TimedOp(now: Int64, op: Op)

  function Apply(ls: seq<SipLocation>, o: TimedOp): seq<SipLocation> {
    match o.op
    case PutOp(l) => Put(ls, l, o.now)
    case RmOp(l) => Removed(ls, Other(l), o.now)
  }

  function ApplyAll(ops: seq<TimedOp>): seq<SipLocation> {
    if ops == [] then [] else Apply(ApplyAll(ops[..|ops| - 1]), ops[|ops| - 1])
  }

  /** What history says about an identity: the last put of it, unless it was removed since. */
  datatype Record = Absent | Present(l: SipLocation)

  function Last(ops: seq<TimedOp>, id: Identity): Record {
    if ops == [] then Absent
    else
      var o := ops[|ops| - 1];
      match o.op
      case PutOp(l) => if IdentityOf(l) == id then Present(l.(registered := o.now)) else Last(ops[..|ops| - 1], id)
      case RmOp(l) => if IdentityOf(l) == id then Absent else Last(ops[..|ops| - 1], id)
  }

  /** History at time `t`: the last put counts while it has not expired. */
  predicate Known(ops: seq<TimedOp>, l: SipLocation, t: int) {
    Last(ops, IdentityOf(l)) == Present(l) && !l.IsExpired(t)
  }

  predicate WellTimed(ops: seq<TimedOp>) {
    && (forall i, j :: 0 <= i <= j < |ops| ==> ops[i].now <= ops[j].now)
    && (forall i :: 0 <= i < |ops| ==> Complete(ops[i].op.l))
  }

  /** All identities differ, and later entries were registered later. */
  predicate Ordered(ls: seq<SipLocation>) {
    && (forall i, j :: 0 <= i < j < |ls| ==> IdentityOf(ls[i]) != IdentityOf(ls[j]))
    && (forall i, j :: 0 <= i < j < |ls| ==> ls[i].registered <= ls[j].registered)
  }

  predicate AllComplete(ls: seq<SipLocation>, now: int) {
    forall i :: 0 <= i < |ls| ==> Complete(ls[i]) && ls[i].registered <= now
  }

  // ---------------------------------------------------------------- list lemmas

  lemma {:induction false} CleanOrdered(ls: seq<SipLocation>, t: int)
    requires Ordered(ls)
    ensures Ordered(Clean(ls, t)) && (forall l :: l in Clean(ls, t) <==> l in ls && !l.IsExpired(t))
  {
    if ls != [] {
      CleanOrdered(ls[1..], t);
      var rest := Clean(ls[1..], t);
      assert forall l :: l in ls <==> l == ls[0] || l in ls[1..];
      forall i | 0 <= i < |rest|
        ensures IdentityOf(ls[0]) != IdentityOf(rest[i]) && ls[0].registered <= rest[i].registered {
        assert rest[i] in ls[1..];
        var j :| 0 <= j < |ls| - 1 && ls[1..][j] == rest[i];
        assert ls[j + 1] == rest[i];
      }
    }
  }

  lemma CompleteMatch(search: SipLocation, it: SipLocation)
    requires Complete(search)
    ensures Same(search, it) <==> IdentityOf(search) == IdentityOf(it)
  {
  }

  /** The identity looked for, with what the search leaves open taken from the location it is compared with. */
  function Completed(search: SipLocation, it: SipLocation): Identity {
    IdentityOf(search.(
      proto := if search.proto == NoProto then it.proto else search.proto,
      prefix := if search.proto == NoProto then it.prefix else search.prefix,
      host := if search.proto == NoProto then it.host else search.host,
      port := if search.proto == NoProto then it.port else search.port,
      tag := if search.proto == NoProto then it.tag else search.tag,
      line := if search.line == "" then it.line else search.line,
      rinstance := if search.rinstance == "" then it.rinstance else search.rinstance))
  }

  /** A search without a transport, a line or an instance matches any; one with none of the three takes out the first
      live location, whichever that is. */
  lemma PartialMatch(search: SipLocation, it: SipLocation, ls: seq<SipLocation>, now: int)
    ensures Same(search, it) <==> IdentityOf(it) == Completed(search, it)
    ensures search.proto == NoProto && search.line == "" && search.rinstance == "" && Clean(ls, now) != [] ==>
              Removed(ls, Other(search), now) == Clean(ls, now)[1..]
  {
    hide Clean;
  }

  /** Erasing the match takes out the one location with that identity. */
  lemma EraseMatch(ls: seq<SipLocation>, search: SipLocation)
    requires Ordered(ls) && Complete(search)
    ensures var r := Erase(ls, FindSame(ls, search));
            Ordered(r) && (forall l :: l in r <==> l in ls && IdentityOf(l) != IdentityOf(search))
  {
    hide FindSame, Same, Complete;
    var i := FindSame(ls, search);
    forall l ensures Same(search, l) <==> IdentityOf(search) == IdentityOf(l) { CompleteMatch(search, l); }
    if i < |ls| {
      EraseAt(ls, i);
    }
  }

  lemma EraseAt(ls: seq<SipLocation>, i: nat)
    requires Ordered(ls) && i < |ls|
    ensures Ordered(Erase(ls, i)) && (forall l :: l in Erase(ls, i) <==> l in ls && IdentityOf(l) != IdentityOf(ls[i]))
  {
    hide IdentityOf;
    var r := Erase(ls, i);
    assert forall j :: 0 <= j < |r| ==> r[j] == ls[if j < i then j else j + 1];
    forall l | l in ls && IdentityOf(l) != IdentityOf(ls[i]) ensures l in r {
      var j :| 0 <= j < |ls| && ls[j] == l;
      assert r[if j < i then j else j - 1] == l;
    }
  }

  /** The list after an operation: complete, ordered, and holding what a lookup at that time should find. */
  lemma ApplyStep(ls: seq<SipLocation>, o: TimedOp)
    requires Ordered(ls) && AllComplete(ls, o.now) && Complete(o.op.l)
    ensures var r := Apply(ls, o);
            Ordered(r) && AllComplete(r, o.now) &&
            forall l :: l in r <==>
              (o.op.PutOp? && l == o.op.l.(registered := o.now)) ||
              (l in ls && !l.IsExpired(o.now) && IdentityOf(l) != IdentityOf(o.op.l))
  {
    hide FindSame, Clean, Erase;
    var live := Clean(ls, o.now);
    CleanOrdered(ls, o.now);
    EraseMatch(live, o.op.l);
    var rest := Erase(live, FindSame(live, o.op.l));
    assert AllComplete(rest, o.now) by {
      forall i | 0 <= i < |rest| ensures Complete(rest[i]) && rest[i].registered <= o.now {
        assert rest[i] in ls;
      }
    }
    if live == [] {
      NothingToErase(o.op.l);
    }
    if o.op.PutOp? {
      Append(rest, o.op.l.(registered := o.now), o.now);
    }
  }

  lemma NothingToErase(l: SipLocation)
    ensures Erase([], FindSame([], l)) == []
  {
  }

  lemma Append(ls: seq<SipLocation>, l: SipLocation, now: int)
    requires Ordered(ls) && AllComplete(ls, now) && Complete(l) && l.registered == now
    requires forall k :: k in ls ==> IdentityOf(k) != IdentityOf(l)
    ensures Ordered(ls + [l]) && AllComplete(ls + [l], now)
  {
  }

  // ---------------------------------------------------------------- runs

  /** After any run from the empty list: all identities differ, registration times do not decrease along the
      list, and a location is in the list and live at `t` exactly when it is the latest put of its identity,
      not removed since and not expired. */
  lemma {:induction false} ListAgreesWithHistory(ops: seq<TimedOp>, t: int)
    requires WellTimed(ops) && (forall i :: 0 <= i < |ops| ==> ops[i].now <= t)
    ensures var ls := ApplyAll(ops);
            Ordered(ls) && AllComplete(ls, t) && forall l :: l in Clean(ls, t) <==> Known(ops, l, t)
    decreases |ops|
  {
    hide Apply, Clean;
    if ops != [] {
      var before, o := ops[..|ops| - 1], ops[|ops| - 1];
      var ls := ApplyAll(before);
      ListAgreesWithHistory(before, o.now);
      ApplyStep(ls, o);
      CleanOrdered(ls, o.now);
      var r := Apply(ls, o);
      CleanOrdered(r, t);
      forall l ensures l in Clean(r, t) <==> Known(ops, l, t) {
        assert l in Clean(ls, o.now) <==> Known(before, l, o.now);
        LastPutWins(ops, l);
      }
    } else {
      CleanOrdered([], t);
    }
  }

  lemma LastPutWins(ops: seq<TimedOp>, l: SipLocation)
    requires ops != []
    ensures var before, o := ops[..|ops| - 1], ops[|ops| - 1];
            Last(ops, IdentityOf(l)) == Present(l) <==>
              if IdentityOf(o.op.l) == IdentityOf(l) then o.op.PutOp? && l == o.op.l.(registered := o.now)
              else Last(before, IdentityOf(l)) == Present(l)
  {
  }

  // ---------------------------------------------------------------- which location a lookup takes

  /** A lookup takes the first live location, which in an ordered list was registered first.  None was registered
      later exactly when all live ones were registered at the same time. */
  lemma FirstIsLatest(ls: seq<SipLocation>, now: int)
    requires Ordered(ls) && Clean(ls, now) != []
    ensures var live := Clean(ls, now);
            Located(ls, now)[0] == live[0] &&
            ((forall l :: l in live ==> l.registered <= live[0].registered) <==>
              live[0].registered == live[|live| - 1].registered)
  {
    hide Clean;
    CleanOrdered(ls, now);
    var live := Clean(ls, now);
    assert live[|live| - 1] in live;
  }

  const DESK := SipLocation(Udp, SipPrefix, "10.0.0.2", 5062, "", "1", "a", 3600, 0)
  const PHONE := SipLocation(Tcp, SipPrefix, "10.0.0.3", 5063, "", "2", "b", 3600, 0)

  /** Of two locations put one after the other, both live, a lookup takes the earlier. */
  lemma EarlierPutIsTaken()
    ensures var ls := ApplyAll([TimedOp(100, PutOp(DESK)), TimedOp(150, PutOp(PHONE))]);
            Clean(ls, 200) == [DESK.(registered := 100), PHONE.(registered := 150)]
            && Located(ls, 200)[0] == DESK.(registered := 100)
  {
    var desk, phone := DESK.(registered := 100), PHONE.(registered := 150);
    var first, ops := [TimedOp(100, PutOp(DESK))], [TimedOp(100, PutOp(DESK)), TimedOp(150, PutOp(PHONE))];
    assert first[..0] == [] && ops[..1] == first;
    assert ApplyAll(first) == [desk];
    CleanLive([desk], 150);
    assert !Same(PHONE, desk);
    assert FindSame([desk], PHONE) == 1;
    assert ApplyAll(ops) == [desk, phone];
    CleanLive([desk, phone], 200);
  }
}
