/** The registrar behind the message step: what one message, and any run of events, does to the
    bindings (SipDialog.cpp, SipAddress.cpp, SipLocation.cpp; section 10.3 of RFC 3261). */
module Registrar {
  import opened Text
  import opened Locations
  import opened AddressText
  import opened AccountMap
  import opened Messages
  import opened Digest
  import opened DigestResponse
  import opened Proxy

  // ---------------------------------------------------------------- what can still be seen

  /** From `now` on, the same locations are live. */
  ghost predicate SameLive(a: seq<SipLocation>, b: seq<SipLocation>, now: int) {
    forall t: int {:trigger Clean(a, t)} {:trigger Clean(b, t)} :: now <= t ==> Clean(a, t) == Clean(b, t)
  }

  /** Equal in every field but the location list, whose live part is the same from `now` on. */
  ghost predicate SameEntry(a: Address, b: Address, now: int) {
    a.(locations := []) == b.(locations := []) && SameLive(a.locations, b.locations, now)
  }

  ghost predicate SameView(a: Accounts, b: Accounts, now: int) {
    a.Keys == b.Keys && forall k :: k in a ==> SameEntry(a[k], b[k], now)
  }

  lemma SameViewTransitive(a: Accounts, b: Accounts, c: Accounts, now: int)
    requires SameView(a, b, now) && SameView(b, c, now)
    ensures SameView(a, c, now)
  {
    hide SameEntry;
    forall k | k in a ensures SameEntry(a[k], c[k], now) {
      assert k in b;
      SameEntryTransitive(a[k], b[k], c[k], now);
    }
  }

  lemma SameEntryTransitive(a: Address, b: Address, c: Address, now: int)
    requires SameEntry(a, b, now) && SameEntry(b, c, now)
    ensures SameEntry(a, c, now)
  {
    hide Clean;
    forall t | now <= t ensures Clean(a.locations, t) == Clean(c.locations, t) {
      assert Clean(a.locations, t) == Clean(b.locations, t);
      assert Clean(b.locations, t) == Clean(c.locations, t);
    }
  }

  /** Purging and locating an entry leaves the view as it was. */
  lemma LookupKeepsView(accounts: Accounts, key: string, now: Time)
    ensures SameView(LocatedAt(accounts, key, now), accounts, now)
            && SameView(PurgedAt(accounts, key, now), accounts, now)
  {
    hide Clean, Located;
    if key in accounts {
      forall t: int | now <= t
        ensures Clean(Located(accounts[key].locations, now), t) == Clean(accounts[key].locations, t)
        ensures Clean(Clean(accounts[key].locations, now), t) == Clean(accounts[key].locations, t)
      {
        LookupKeepsLive(accounts[key].locations, now, t);
      }
    }
  }

  // ---------------------------------------------------------------- reading a message

  /** `b` is `a` as the server sees it after decrementing Max-Forwards and reading headers through a
      map access that inserts missing ones. */
  ghost predicate ReadsLike(a: SipMessage, b: SipMessage) {
    && a.command == b.command && a.proto == b.proto && a.address == b.address
    && a.commandParam == b.commandParam && a.code == b.code && a.body == b.body
    && (forall n :: n != "Max-Forwards" ==> Get(a.headers, n) == Get(b.headers, n))
    && ("Authorization" in a.headers <==> "Authorization" in b.headers)
  }

  lemma HeaderNames()
    ensures "Authorization" !in {"V", "F", "T", "CSeq", "Expires", "Max-Forwards"}
    ensures "Max-Forwards" !in {"V", "F", "T", "Expires", "Authorization"}
  {
    assert |"Authorization"| == 13 && |"Max-Forwards"| == 12 && |"Expires"| == 7 && |"CSeq"| == 4;
  }

  lemma PreparedReadsLike(m: SipMessage, tag: nat)
    ensures ReadsLike(m, Prepare(m.WithMaxForwards(ToInt32(m.MaxForwards() - 1)), tag).m)
  {
    hide Dec, ParseInt, ReplaceParameter, ParameterOf, HasParameter, ReplyTo;
    HeaderNames();
  }

  /** The From and To keys, the expiry and the credentials are read from a message the same way. */
  lemma SameReading(a: SipMessage, b: SipMessage, domain: string)
    requires ReadsLike(a, b)
    ensures FromKey(a) == FromKey(b) && ToKey(a) == ToKey(b) && a.Expires() == b.Expires()
    ensures Presented(domain, a.headers) == Presented(domain, b.headers)
  {
    hide ParseInt, ParseHeader, KeyOf;
    HeaderNames();
    if "Authorization" in a.headers {
      assert Get(a.headers, "Authorization") == Get(b.headers, "Authorization");
    }
  }

  // ---------------------------------------------------------------- who may update

  predicate Granted(env: Env, config: Config, accounts: Accounts, m: SipMessage) {
    var p := Presented(config.domain, m.headers);
    p.Returned? && Permitted(env, config, accounts, m, p.value)
  }

  /** The message reaches updateLocation: it is a request with hops left, from a known user, who registers
      or is not registered at present, and isByUser and authenticate both accept it. */
  predicate UpdateGranted(env: Env, config: Config, accounts: Accounts, m: SipMessage, now: int) {
    && m.MaxForwards() != 0
    && !m.command.Response?
    && (m.command.Register? || !LiveAt(accounts, FromKey(m), now))
    && Granted(env, config, accounts, m)
  }

  lemma SameGrant(env: Env, config: Config, a: Accounts, b: Accounts, m: SipMessage, m': SipMessage, now: int)
    requires SameView(a, b, now) && ReadsLike(m, m')
    ensures Granted(env, config, a, m) <==> Granted(env, config, b, m')
    ensures forall p :: Permitted(env, config, a, m, p) <==> Permitted(env, config, b, m', p)
    ensures LiveAt(a, FromKey(m), now) <==> LiveAt(b, FromKey(m'), now)
  {
    hide Presented, KeyOf, IsAuthorized, CommandName, Clean;
    SameReading(m, m', config.domain);
    assert forall k :: k in a ==> SameEntry(a[k], b[k], now);
  }

  /** An update depends on the view only. */
  lemma UpdateOnViews(config: Config, a: Accounts, b: Accounts, m: SipMessage, m': SipMessage, now: Time)
    requires SameView(a, b, now) && ReadsLike(m, m')
    ensures SameView(UpdatedAccounts(config, a, m, now), UpdatedAccounts(config, b, m', now), now)
  {
    hide KeyOf, Clean, ParseInt;
    SameReading(m, m', config.domain);
    var key := ToKey(m);
    if key in a {
      assert SameEntry(a[key], b[key], now);
      assert Clean(a[key].locations, now) == Clean(b[key].locations, now);
      assert Located(a[key].locations, now) == Located(b[key].locations, now);
    }
  }

  // ---------------------------------------------------------------- one message

  /** Whatever the step purges and inserts on its way, the view it leaves is the update of To's entry when
      the update is granted, and the old view otherwise. */
  lemma StepEffect(env: Env, config: Config, accounts: Accounts, m: SipMessage, tag: nat,
                   svc: Endpoint, nonce: string, now: Time)
    ensures SameView(MessageStep(env, config, accounts, m, tag, svc, nonce, now).accounts,
                     if UpdateGranted(env, config, accounts, m, now) then UpdatedAccounts(config, accounts, m, now)
                       else accounts,
                     now)
  {
    hide SameView, Prepare, UpdatedAccounts, LocatedAt, PurgedAt, RequestStep, Granted, LiveAt;
    SameViewReflexive(accounts, now);
    if m.MaxForwards() != 0 {
      var m1 := m.WithMaxForwards(ToInt32(m.MaxForwards() - 1));
      if m1.command.Response? {
        LookupKeepsView(accounts, FromKey(m1), now);
      } else {
        PreparedReadsLike(m, tag);
        RequestEffect(env, config, accounts, m, m1, tag, svc, nonce, now);
      }
    }
  }

  lemma SameViewReflexive(accounts: Accounts, now: int)
    ensures SameView(accounts, accounts, now)
  {
  }

  lemma RequestEffect(env: Env, config: Config, accounts: Accounts, m: SipMessage, m1: SipMessage, tag: nat,
                      svc: Endpoint, nonce: string, now: Time)
    requires ReadsLike(m, Prepare(m1, tag).m) && !m.command.Response?
    ensures SameView(RequestStep(env, config, accounts, m1, tag, svc, nonce, now).accounts,
                     if (m.command.Register? || !LiveAt(accounts, FromKey(m), now)) && Granted(env, config, accounts, m)
                     then UpdatedAccounts(config, accounts, m, now) else accounts,
                     now)
  {
    hide SameView, ReadsLike, Prepare, UpdatedAccounts, LocatedAt, PurgedAt, CalleeStep, CallerStep, Granted, LiveAt;
    var start := Prepare(m1, tag);
    CallerEffect(env, config, accounts, m, start.m, start.r, svc, nonce, now);
    match CallerStep(env, config, accounts, start.m, start.r, svc, nonce, now)
    case CallerThrew(accounts1, _) =>
    case Refused(accounts1, _, _) =>
    case Admitted(accounts1, m2, r2) =>
      LookupKeepsView(accounts1, ToKey(m2), now);
      LocatedKeepsKey(accounts1, ToKey(m2), now);
      ToReads(accounts1, m2);
      var target := if !m.command.Register? && !LiveAt(accounts, FromKey(m), now) && Granted(env, config, accounts, m)
                    then UpdatedAccounts(config, accounts, m, now) else accounts;
      SameViewTransitive(LocatedAt(accounts1, ToKey(m2), now), accounts1, target, now);
      CalleeEffect(env, config, accounts, target, LocatedAt(accounts1, ToKey(m2), now), m, m2, r2, start.branch,
        start.tag, svc, nonce, now);
  }

  lemma LocatedKeepsKey(accounts: Accounts, key: string, now: Time)
    ensures key in accounts ==> LocatedAt(accounts, key, now)[key].Key() == accounts[key].Key()
  {
    hide Located, Clean;
  }

  /** Noting the callee does not depend on its locations. */
  lemma ToReads(accounts: Accounts, m: SipMessage)
    ensures forall now: Time {:trigger LocatedAt(accounts, ToKey(m), now)} ::
      CalleeNoted(accounts, m) == CalleeNoted(LocatedAt(accounts, ToKey(m), now), m)
  {
    hide Located, Clean, KeyOf;
    HeaderNames();
  }

  lemma NotedReadsLike(accounts: Accounts, m: SipMessage, n: SipMessage)
    requires ReadsLike(m, n)
    ensures ReadsLike(m, CalleeNoted(accounts, n))
    ensures forall key :: ReadsLike(m, n.(keyFrom := key))
    ensures ReadsLike(m, UpdateTouches(accounts, n))
  {
    hide KeyOf;
    HeaderNames();
  }

  lemma CallerEffect(env: Env, config: Config, accounts: Accounts, m: SipMessage, n: SipMessage, r: SipMessage,
                     svc: Endpoint, nonce: string, now: Time)
    requires ReadsLike(m, n)
    ensures var target := if !m.command.Register? && !LiveAt(accounts, FromKey(m), now)
            && Granted(env, config, accounts, m)
                          then UpdatedAccounts(config, accounts, m, now) else accounts;
            var c := CallerStep(env, config, accounts, n, r, svc, nonce, now);
            SameView(c.accounts, target, now) && (c.Admitted? ==> ReadsLike(m, c.m)) &&
            (!c.Admitted? ==> !m.command.Register?)
  {
    hide SameView, ReadsLike, UpdatedAccounts, LocatedAt, PurgedAt, LiveAt, Presented, Permitted, UpdatedReply,
      Challenged, UpdateTouches, KeyOf;
    SameReading(m, n, config.domain);
    assert m.command == n.command by { assert ReadsLike(m, n); CommandReads(m, n); }
    SameViewReflexive(accounts, now);
    var from := FromKey(n);
    if from !in accounts {
      NotGranted(env, config, accounts, m);
    } else {
      var purged, n1 := PurgedAt(accounts, from, now), n.(keyFrom := accounts[from].Key());
      LookupKeepsView(accounts, from, now);
      NotedReadsLike(accounts, m, n);
      NotedReadsLike(purged, m, n1);
      SameViewSymmetric(purged, accounts, now);
      SameGrant(env, config, accounts, purged, m, n1, now);
      UpdateOnViews(config, purged, accounts, n1, m, now) by { ReadsLikeSymmetric(m, n1); }
      SameReading(m, n1, config.domain);
      SameGrant(env, config, accounts, accounts, m, n, now);
    }
  }

  lemma CommandReads(m: SipMessage, n: SipMessage)
    requires ReadsLike(m, n)
    ensures m.command == n.command
  {
  }

  lemma ReadsLikeSymmetric(m: SipMessage, n: SipMessage)
    requires ReadsLike(m, n)
    ensures ReadsLike(n, m)
  {
  }

  lemma SameViewSymmetric(a: Accounts, b: Accounts, now: int)
    requires SameView(a, b, now)
    ensures SameView(b, a, now)
  {
    hide Clean;
  }

  lemma NotGranted(env: Env, config: Config, accounts: Accounts, m: SipMessage)
    requires FromKey(m) !in accounts
    ensures !Granted(env, config, accounts, m)
  {
    hide Presented, KeyOf, IsAuthorized;
  }

  /** The second half of the step: `accounts1` shows the view `target` that the first half left. */
  lemma CalleeEffect(env: Env, config: Config, accounts: Accounts, target: Accounts, accounts1: Accounts,
                     m: SipMessage, n: SipMessage, r: SipMessage, branch: string, tag: nat,
                     svc: Endpoint, nonce: string, now: Time)
    requires ReadsLike(m, n) && SameView(accounts1, target, now) && (m.command.Register? ==> target == accounts)
    requires ToKey(n) in accounts1 ==> accounts1[ToKey(n)].locations != []
    ensures var noted := CalleeNoted(accounts1, n);
            SameView(CalleeStep(env, config, accounts1, noted, r, branch, tag, svc, nonce, now).accounts,
                     if m.command.Register?
                       && Granted(env, config, accounts, m) then UpdatedAccounts(config, accounts, m, now)
                     else target, now)
  {
    hide SameView, ReadsLike, UpdatedAccounts, Presented, Permitted, CalleeReplies, Challenged, UpdatedReply, KeyOf,
      CalleeNoted;
    var noted := CalleeNoted(accounts1, n);
    NotedReadsLike(accounts1, m, n);
    CommandReads(m, noted);
    SameReading(m, noted, config.domain);
    if m.command.Register? {
      SameViewSymmetric(accounts1, accounts, now);
      SameGrant(env, config, accounts, accounts1, m, noted, now);
      ReadsLikeSymmetric(m, noted);
      UpdateOnViews(config, accounts1, accounts, noted, m, now);
    }
  }
}
