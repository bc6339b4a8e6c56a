/** What a reported success of openSocket is worth (SipServer.cpp). */
module Sockets {
  import opened Locations
  import opened Delivery
  import opened Listeners

  /** A call for the UDP or the TCP slot: what the system returns for a new socket, and whether binding it works. */
  datatype Call = OpenCall(fd: int, bound: bool) | CloseCall

  /** The slot, and whether the socket in it is bound to its port. */
  datatype SlotState = SlotState(fd: int, bound: bool)

  const CLOSED := SlotState(SOCKET_ERROR, false)

  function AfterCall(s: SlotState, c: Call): SlotState {
    match c
    case OpenCall(fd, bound) =>
      if s.fd != SOCKET_ERROR then s else if fd != SOCKET_ERROR then SlotState(fd, bound) else CLOSED
    case CloseCall => CLOSED
  }

  function AfterCalls(cs: seq<Call>): SlotState {
    if cs == [] then CLOSED else AfterCall(AfterCalls(cs[..|cs| - 1]), cs[|cs| - 1])
  }

  /** What openSocket returns. */
  predicate Reports(s: SlotState, fd: int, bound: bool) {
    s.fd != SOCKET_ERROR || (fd != SOCKET_ERROR && bound)
  }

  /** The slots of the server move as described. */
  lemma SlotsMove(net: Net, p: Proto, s: SlotState, fd: int, bound: bool)
    requires net.Valid() && (p.Udp? || p.Tcp?) && net.sockets[Slot(p)] == s.fd
    ensures net.SocketOpened(p, fd).sockets[Slot(p)] == AfterCall(s, OpenCall(fd, bound)).fd
    ensures net.SocketClosed(p).sockets[Slot(p)] == AfterCall(s, CloseCall).fd
  {
  }

  /** A second call after one whose binding failed succeeds, whatever the system would return for it: the socket that
      is not bound is still in the slot. */
  method OpenTwice(sip: SipServer, p: Proto, fd: int, again: int, bound: bool) returns (first: bool, second: bool)
    requires sip.Valid() && (p.Udp? || p.Tcp?) && sip.sockets[Slot(p)] == SOCKET_ERROR && fd != SOCKET_ERROR
    modifies sip.sockets
    ensures sip.Valid() && !first && second && sip.sockets[Slot(p)] == fd
  {
    first := sip.OpenSocket(p, fd, false);
    assert sip.Network(sip.NoMaps()).sockets[Slot(p)] == fd;
    second := sip.OpenSocket(p, again, bound);
    assert sip.Network(sip.NoMaps()).sockets[Slot(p)] == fd;
  }

  // ---------------------------------------------------------------- histories

  predicate ClosedBetween(cs: seq<Call>, i: int, j: int)
    requires 0 <= i <= j <= |cs|
  {
    exists k :: i <= k < j && cs[k] == CloseCall
  }

  predicate Obtains(c: Call) {
    c.OpenCall? && c.fd != SOCKET_ERROR
  }

  /** The call that obtained the socket the slot has now: the first to get one since the slot was last closed.  It is
      the only one since then that tried to bind. */
  predicate Obtained(cs: seq<Call>, i: nat) {
    && i < |cs| && Obtains(cs[i]) && !ClosedBetween(cs, i, |cs|)
    && forall j :: 0 <= j < i && Obtains(cs[j]) ==> ClosedBetween(cs, j, i)
  }

  lemma ObtainedStep(cs: seq<Call>, c: Call, i: nat)
    ensures Obtained(cs + [c], i) <==>
            if c == CloseCall then false
            else if i == |cs| then Obtains(c) && forall j :: 0 <= j < |cs| && Obtains(cs[j]) ==>
              ClosedBetween(cs, j, |cs|)
            else Obtained(cs, i)
  {
    var all := cs + [c];
    forall j, k | 0 <= j <= k <= |cs| ensures ClosedBetween(all, j, k) <==> ClosedBetween(cs, j, k) {
      SameClosed(cs, c, j, k);
    }
    if i < |cs| {
      LastClosed(cs, c, i);
    } else if i == |cs| {
      LastClosed(cs, c, i);
      assert !ClosedBetween(cs, i, i);
    }
  }

  lemma SameClosed(cs: seq<Call>, c: Call, j: nat, k: nat)
    requires j <= k <= |cs|
    ensures ClosedBetween(cs + [c], j, k) <==> ClosedBetween(cs, j, k)
  {
    var all := cs + [c];
    if ClosedBetween(cs, j, k) {
      var n :| j <= n < k && cs[n] == CloseCall;
      assert all[n] == CloseCall;
    }
    if ClosedBetween(all, j, k) {
      var n :| j <= n < k && all[n] == CloseCall;
      assert cs[n] == CloseCall;
    }
  }

  lemma LastClosed(cs: seq<Call>, c: Call, i: nat)
    requires i <= |cs|
    ensures ClosedBetween(cs + [c], i, |cs| + 1) <==> c == CloseCall || ClosedBetween(cs, i, |cs|)
  {
    var all := cs + [c];
    SameClosed(cs, c, i, |cs|);
    assert all[|cs|] == c;
    if ClosedBetween(all, i, |cs| + 1) && c != CloseCall {
      var n :| i <= n < |cs| + 1 && all[n] == CloseCall;
      assert cs[n] == CloseCall;
    }
  }

  /** The slot holds the socket of the call that obtained it, bound or not, and is closed when there is none. */
  lemma {:induction false} SlotHistory(cs: seq<Call>)
    ensures forall i :: 0 <= i < |cs| && Obtained(cs, i) ==> AfterCalls(cs) == SlotState(cs[i].fd, cs[i].bound)
    ensures AfterCalls(cs).fd != SOCKET_ERROR ==> exists i :: 0 <= i < |cs| && Obtained(cs, i)
    ensures AfterCalls(cs).fd == SOCKET_ERROR ==>
            AfterCalls(cs) == CLOSED && forall j :: 0 <= j < |cs| && Obtains(cs[j]) ==> ClosedBetween(cs, j, |cs|)
    decreases |cs|
  {
    hide Obtained, ClosedBetween;
    if cs != [] {
      var n := |cs| - 1;
      var before, c := cs[..n], cs[n];
      SlotHistory(before);
      assert cs == before + [c];
      forall i: nat ensures Obtained(cs, i) <==>
          if c == CloseCall then false
          else if i == n then Obtains(c) && forall j :: 0 <= j < n && Obtains(before[j]) ==> ClosedBetween(before, j, n)
          else Obtained(before, i)
      {
        ObtainedStep(before, c, i);
      }
      if AfterCalls(before).fd != SOCKET_ERROR {
        var i :| 0 <= i < n && Obtained(before, i);
        StillOpen(before, i);
        assert Obtains(before[i]) && !ClosedBetween(before, i, n);
        assert !Obtained(cs, n);
        assert c != CloseCall ==> Obtained(cs, i);
      } else if c != CloseCall && c.fd != SOCKET_ERROR {
        assert Obtained(cs, n);
        NoneBefore(before);
      } else {
        NoneBefore(before);
      }
      forall j | 0 <= j < |cs| && Obtains(cs[j]) && AfterCalls(cs).fd == SOCKET_ERROR
        ensures ClosedBetween(cs, j, |cs|) {
        LastClosed(before, c, j);
      }
    }
  }

  /** A socket obtained is not closed since, so no later call obtains one. */
  lemma StillOpen(cs: seq<Call>, i: nat)
    requires Obtained(cs, i)
    ensures i < |cs| && Obtains(cs[i]) && !ClosedBetween(cs, i, |cs|)
  {
  }

  lemma NoneBefore(cs: seq<Call>)
    requires forall j :: 0 <= j < |cs| && Obtains(cs[j]) ==> ClosedBetween(cs, j, |cs|)
    ensures forall i: nat :: !Obtained(cs, i)
  {
  }

  /** A reported success means a bound socket if and only if the call that obtained the socket had its binding
      succeed: after a failed binding every call succeeds until the slot is closed. */
  lemma SuccessMeansBound(cs: seq<Call>, fd: int, bound: bool)
    requires Reports(AfterCalls(cs), fd, bound)
    ensures var all := cs + [OpenCall(fd, bound)];
            AfterCalls(all).bound <==> forall i :: 0 <= i < |all| && Obtained(all, i) ==> all[i].bound
  {
    hide Obtained;
    var all := cs + [OpenCall(fd, bound)];
    assert all[..|cs|] == cs;
    SlotHistory(all);
    assert AfterCalls(all).fd != SOCKET_ERROR;
    var i :| 0 <= i < |all| && Obtained(all, i);
  }
}
