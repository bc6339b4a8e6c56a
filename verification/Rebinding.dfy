/** Whose binding a granted message changes, whose password it was granted for, and where its copy goes then
    (SipDialog.cpp). */
module Rebinding {
  import opened Wrappers
  import opened Text
  import opened Locations
  import opened AddressText
  import opened AccountMap
  import opened Messages
  import opened Digest
  import opened DigestResponse
  import opened Proxy
  import opened Registrar
  import opened RegistrarRuns
  import opened Routing

  // ---------------------------------------------------------------- whose binding

  /** The update would write what is there already: nothing to unbind, or the very same binding once more. */
  predicate UpdateIsIdle(config: Config, a: Address, m: SipMessage, now: Time) {
    var live := Clean(a.locations, now);
    if m.Expires() <= 0 then live == []
    else
      && a.domain == config.domain && live != []
      && live[0] == Bound(live[0], m.proto, m.address.ip, m.address.port, m.Expires(), now)
  }

  /** Otherwise it can be seen. */
  lemma UpdateShowsUnlessIdle(config: Config, a: Address, m: SipMessage, now: Time)
    ensures SameEntry(a, UpdatedEntry(config.domain, a, m, m.Expires(), now), now) <==> UpdateIsIdle(config, a, m, now)
  {
    hide Clean, ParseInt, Unbound, Rebound;
    if m.Expires() <= 0 {
      UnbindShows(a.locations, m.Expires(), now);
    } else {
      RebindShows(a.locations, m.proto, m.address.ip, m.address.port, m.Expires(), now);
      DomainStays(config, a, m, now);
    }
  }

  lemma DomainStays(config: Config, a: Address, m: SipMessage, now: Time)
    requires m.Expires() > 0
    ensures SameEntry(a, UpdatedEntry(config.domain, a, m, m.Expires(), now), now) <==>
            a.domain == config.domain
            && SameLive(a.locations, Rebound(a.locations, m.proto, m.address.ip, m.address.port, m.Expires(), now), now)
  {
    hide SameLive, Rebound, ParseInt;
    var b := UpdatedEntry(config.domain, a, m, m.Expires(), now);
    assert a.(locations := []).domain == a.domain && b.(locations := []).domain == config.domain;
    if a.domain == config.domain {
      assert a.(locations := []) == b.(locations := []);
    }
  }

  lemma UnbindShows(ls: seq<SipLocation>, expire: Int32, now: Time)
    requires expire <= 0
    ensures SameLive(ls, Unbound(ls, expire, now), now) <==> Clean(ls, now) == []
  {
    hide Clean, Unbound;
    var live, left := Clean(ls, now), Unbound(ls, expire, now);
    UnboundExactly(ls, expire, now);
    if live == [] {
      forall t: int | now <= t ensures Clean(ls, t) == Clean(left, t) {
        CleanClean(ls, now, t);
      }
    } else {
      CleanShrinks(left, now);
      assert |Clean(left, now)| < |Clean(ls, now)|;
    }
  }

  lemma RebindShows(ls: seq<SipLocation>, proto: Proto, host: string, port: Port, expire: Int32, now: Time)
    requires expire > 0
    ensures SameLive(ls, Rebound(ls, proto, host, port, expire, now), now) <==>
            Clean(ls, now) != [] && Clean(ls, now)[0] == Bound(Clean(ls, now)[0], proto, host, port, expire, now)
  {
    hide Clean, Rebound;
    var live, after := Clean(ls, now), Rebound(ls, proto, host, port, expire, now);
    ReboundLive(ls, proto, host, port, expire, now, now);
    if live != [] && live[0] == Bound(live[0], proto, host, port, expire, now) {
      ReboundSame(ls, proto, host, port, expire, now);
      forall t: int | now <= t ensures Clean(ls, t) == Clean(after, t) {
        CleanClean(ls, now, t);
      }
    } else {
      assert Clean(after, now)[0] == Bound(Located(ls, now)[0], proto, host, port, expire, now);
      assert Clean(after, now) != Clean(ls, now);
    }
  }

  lemma ReboundSame(ls: seq<SipLocation>, proto: Proto, host: string, port: Port, expire: Int32, now: Time)
    requires Clean(ls, now) != [] && Clean(ls, now)[0] == Bound(Clean(ls, now)[0], proto, host, port, expire, now)
    ensures Rebound(ls, proto, host, port, expire, now) == Clean(ls, now)
  {
    hide Clean;
  }

  ghost predicate OnlyFromChanges(accounts: Accounts, after: Accounts, m: SipMessage, now: int) {
    forall k :: k in accounts && k != FromKey(m) ==> k in after && SameEntry(accounts[k], after[k], now)
  }

  /** Nobody's entry but the sender's changes if and only if the message is not granted, or names its sender or
      nobody known in To, or would write To's entry as it is.  Section 10.3 of RFC 3261 has the registrar check
      that the user authenticated may change the bindings of the address in To; here nothing compares the two,
      for REGISTER as for any other request. */
  lemma OthersStayUnlessGranted(env: Env, config: Config, accounts: Accounts, m: SipMessage, tag: nat,
                                svc: Endpoint, nonce: string, now: Time)
    ensures OnlyFromChanges(accounts, MessageStep(env, config, accounts, m, tag, svc, nonce, now).accounts, m, now) <==>
            !(UpdateGranted(env, config, accounts, m, now) && ToKey(m) in accounts && ToKey(m) != FromKey(m)
              && !UpdateIsIdle(config, accounts[ToKey(m)], m, now))
  {
    hide MessageStep, UpdateGranted, UpdatedEntry, UpdateIsIdle, KeyOf, ParseInt, SameEntry;
    var after := MessageStep(env, config, accounts, m, tag, svc, nonce, now).accounts;
    var key := ToKey(m);
    Conservation(env, config, accounts, m, tag, svc, nonce, now);
    if UpdateGranted(env, config, accounts, m, now) && key in accounts {
      StepEffect(env, config, accounts, m, tag, svc, nonce, now);
      UpdateShowsUnlessIdle(config, accounts[key], m, now);
      EntryInView(after, UpdatedAccounts(config, accounts, m, now), key, now);
      SameAsUpdated(accounts[key], after[key], UpdatedEntry(config.domain, accounts[key], m, m.Expires(), now), now);
    }
  }

  lemma EntryInView(a: Accounts, b: Accounts, key: string, now: int)
    requires SameView(a, b, now) && key in a
    ensures key in b && SameEntry(a[key], b[key], now)
  {
    hide SameEntry;
  }

  lemma SameAsUpdated(a: Address, b: Address, c: Address, now: int)
    requires SameEntry(b, c, now)
    ensures SameEntry(a, b, now) <==> SameEntry(a, c, now)
  {
    hide Clean;
    if SameEntry(a, b, now) {
      SameEntryTransitive(a, b, c, now);
    }
    if SameEntry(a, c, now) {
      SameEntryBack(b, c, now);
      SameEntryTransitive(a, c, b, now);
    }
  }

  lemma SameEntryBack(a: Address, b: Address, now: int)
    requires SameEntry(a, b, now)
    ensures SameEntry(b, a, now)
  {
    hide Clean;
  }

  // ---------------------------------------------------------------- whose password

  /** The domain of the account whose password is checked comes from the client's header.  Where keys are right,
      a granted message was checked against its sender's own password if and only if that domain is the
      registry's. */
  lemma GrantChecksSender(env: Env, config: Config, accounts: Accounts, m: SipMessage, p: AuthParams)
    requires Keyed(accounts) && Permitted(env, config, accounts, m, p)
    ensures PresentedKey(p) in accounts
            && IsAuthorized(env.md5, p, CommandName(m.command), accounts[PresentedKey(p)].password, "")
    ensures FromKey(m) in accounts && (PresentedKey(p) == FromKey(m) <==> p.domain == config.domain)
  {
    hide KeyOf, IsAuthorized;
    assert accounts[FromKey(m)].Key() == FromKey(m);
    DomainInKey(p.username, p.domain, config.domain);
  }

  /** The same users with the same passwords; bindings may differ. */
  predicate SameUsers(a: Accounts, b: Accounts) {
    a.Keys == b.Keys && forall k :: k in a ==>
      a[k].id == b[k].id && a[k].password == b[k].password && a[k].domain == b[k].domain
  }

  /** Section 3.2.1 of RFC 2617 leaves it to the server to refuse a nonce it did not issue or that is stale.  This one
      never compares it: two REGISTERs with the same From and the same Authorization header are granted alike,
      whatever their To, expiry, sender and time. */
  lemma GrantIgnoresNonce(env: Env, config: Config, accounts: Accounts, later: Accounts, m: SipMessage,
                          again: SipMessage,
                          now: int, at: int)
    requires m.command.Register? && again.command.Register? && m.MaxForwards() != 0 && again.MaxForwards() != 0
    requires Get(again.headers, "F") == Get(m.headers, "F") && SameUsers(accounts, later)
    requires "Authorization" in m.headers <==> "Authorization" in again.headers
    requires Get(again.headers, "Authorization") == Get(m.headers, "Authorization")
    ensures UpdateGranted(env, config, later, again, at) <==> UpdateGranted(env, config, accounts, m, now)
  {
    hide KeyOf, ParseInt, ParseHeader, IsAuthorized, LiveAt;
  }

  // ---------------------------------------------------------------- where the copy goes

  /** The copy of a request, located by the registry before the message.  Without an update it goes to the first
      location that was live.  With one it goes where the update has put To: to the transport and address of the
      sender when the expiry is positive, and else to a location that was live behind the one removed. */
  lemma CopyDestination(env: Env, config: Config, accounts: Accounts, m: SipMessage, tag: nat,
                        svc: Endpoint, nonce: string, now: Time, f: SipMessage)
    requires env.resolve("") == None && !m.command.Response? && m.MaxForwards() != 0
    requires f in MessageStep(env, config, accounts, m, tag, svc, nonce, now).replies && !f.command.Response?
    ensures ToKey(m) in accounts
    ensures LiveAt(accounts, ToKey(m), now) || (UpdateGranted(env, config, accounts, m, now) && m.Expires() > 0)
    ensures !UpdateGranted(env, config, accounts, m, now) ==> SentTo(env, f, LiveLocation(accounts, ToKey(m), now))
    ensures UpdateGranted(env, config, accounts, m, now) && m.Expires() > 0 ==>
            f.proto == m.proto && f.address.port == m.address.port && env.resolve(m.address.ip) == Some(f.address.ip)
    ensures UpdateGranted(env, config, accounts, m, now) && m.Expires() <= 0 ==>
            exists i :: 0 < i < |Clean(accounts[ToKey(m)].locations, now)|
              && SentTo(env, f, Clean(accounts[ToKey(m)].locations, now)[i])
  {
    hide MessageStep, RequestOutcome, ForwardedCopy, KeyOf, ParseInt, Dec, UpdateGranted, SentTo, Clean, Located,
      LiveLocation;
    var s := MessageStep(env, config, accounts, m, tag, svc, nonce, now);
    RequestRouting(env, config, accounts, m, tag, svc, nonce, now);
    CopyIn(env, config, accounts, s.accounts, m, now, s.replies, f);
    if UpdateGranted(env, config, accounts, m, now) && ToKey(m) in accounts && m.Expires() > 0 {
      SentToSender(env, f, Located(accounts[ToKey(m)].locations, now)[0], m, now);
    }
  }

  lemma CopyIn(env: Env, config: Config, before: Accounts, after: Accounts, m: SipMessage, now: Time,
               replies: seq<SipMessage>, f: SipMessage)
    requires RequestOutcome(env, config, before, after, m, now, replies) && f in replies && !f.command.Response?
    ensures LiveNext(env, config, before, m, now) && SentTo(env, f, NextLocation(env, config, before, m, now))
    ensures ToKey(m) in before
  {
    hide SentTo, KeyOf, LiveNext, NextLocation, Dec, ParseInt;
    assert CanForward(env, config, before, m, now);
  }

  lemma SentToSender(env: Env, f: SipMessage, l: SipLocation, m: SipMessage, now: Time)
    requires SentTo(env, f, Bound(l, m.proto, m.address.ip, m.address.port, m.Expires(), now))
    ensures f.proto == m.proto && f.address.port == m.address.port && env.resolve(m.address.ip) == Some(f.address.ip)
  {
    hide ParseInt;
  }
}
