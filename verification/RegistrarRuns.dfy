/** The registrar implements a map from address to one binding with a deadline, over every run (section
    10.3 of RFC 3261; SipDialog.cpp, SipRegistry.cpp). */
module RegistrarRuns {
  import opened Text
  import opened Locations
  import opened AddressText
  import opened AccountMap
  import opened Messages
  import opened Digest
  import opened DigestResponse
  import opened Proxy
  import Json
  import opened Registrar

  // ---------------------------------------------------------------- conservation

  /** One message never adds or removes an account and never changes who it belongs to or its password; the
      live locations of every account stay as they are from now on, except To's when the update is granted. */
  lemma Conservation(env: Env, config: Config, accounts: Accounts, m: SipMessage, tag: nat,
                     svc: Endpoint, nonce: string, now: Time)
    ensures var after := MessageStep(env, config, accounts, m, tag, svc, nonce, now).accounts;
            after.Keys == accounts.Keys &&
            forall k :: k in accounts ==>
              after[k].id == accounts[k].id && after[k].password == accounts[k].password &&
              (k != ToKey(m) || !UpdateGranted(env, config, accounts, m, now) ==> SameEntry(accounts[k], after[k], now))
  {
    hide MessageStep, UpdateGranted, Rebound, Unbound, Clean, KeyOf, ParseInt;
    var after := MessageStep(env, config, accounts, m, tag, svc, nonce, now).accounts;
    StepEffect(env, config, accounts, m, tag, svc, nonce, now);
    forall k | k in accounts
      ensures after[k].id == accounts[k].id && after[k].password == accounts[k].password
      ensures k != ToKey(m) || !UpdateGranted(env, config, accounts, m, now) ==> SameEntry(accounts[k], after[k], now)
    {
      var target := if UpdateGranted(env, config, accounts, m, now) then UpdatedAccounts(config, accounts, m, now)
        else accounts;
      assert SameEntry(after[k], target[k], now);
    }
  }

  /** The message's update overwrites the domain of an entry that had another one. */
  predicate MovesDomain(env: Env, config: Config, accounts: Accounts, m: SipMessage, now: int) {
    UpdateGranted(env, config, accounts, m, now) && ToKey(m) in accounts && m.Expires() > 0
    && accounts[ToKey(m)].domain != config.domain
  }

  /** A message leaves the keys right exactly when it does not rebind an entry of another domain, because the
      update overwrites the entry's domain with the registry's. */
  lemma KeysStayRight(env: Env, config: Config, accounts: Accounts, m: SipMessage, tag: nat,
                      svc: Endpoint, nonce: string, now: Time)
    requires Keyed(accounts)
    ensures Keyed(MessageStep(env, config, accounts, m, tag, svc, nonce, now).accounts) <==>
            !MovesDomain(env, config, accounts, m, now)
  {
    hide MessageStep, UpdateGranted, Rebound, Unbound, Clean, KeyOf, ParseInt;
    var after := MessageStep(env, config, accounts, m, tag, svc, nonce, now).accounts;
    StepEffect(env, config, accounts, m, tag, svc, nonce, now);
    var target := if UpdateGranted(env, config, accounts, m, now) then UpdatedAccounts(config, accounts, m, now)
      else accounts;
    assert forall k :: k in target ==> SameEntry(after[k], target[k], now);
    assert forall k :: k in target ==> after[k].Key() == target[k].Key();
    if m.Expires() > 0 && ToKey(m) in accounts && target != accounts {
      DomainInKey(accounts[ToKey(m)].id, accounts[ToKey(m)].domain, config.domain);
      assert target[ToKey(m)].Key() == accounts[ToKey(m)].id + "@" + config.domain;
    }
  }

  lemma DomainInKey(id: string, domain: string, domain': string)
    ensures id + "@" + domain == id + "@" + domain' <==> domain == domain'
  {
    assert (id + "@" + domain)[|id| + 1..] == domain;
    assert (id + "@" + domain')[|id| + 1..] == domain';
  }

  // ---------------------------------------------------------------- the abstract registrar

  datatype Binding = Binding(proto: Proto, host: string, port: int, deadline: int)
  datatype Account = Account(id: string, password: string, domain: string)

  /** Accounts, and for some of them one binding with a deadline; nothing is ever purged. */
  datatype Bindings = Bindings(accounts: map<string, Account>, bound: map<string, Binding>) {
    predicate Live(key: string, t: int) {
      key in bound && t <= bound[key].deadline
    }

    function Rebind(key: string, domain: string, b: Binding): Bindings
      requires key in accounts
    {
      Bindings(accounts[key := accounts[key].(domain := domain)], bound[key := b])
    }

    function Unbind(key: string): Bindings {
      Bindings(accounts, bound - {key})
    }
  }

  predicate SpecPermitted(env: Env, config: Config, s: Bindings, m: SipMessage, p: AuthParams) {
    && FromKey(m) in s.accounts && s.accounts[FromKey(m)].id == p.username
       && s.accounts[FromKey(m)].domain == config.domain
    && p.username != "" && PresentedKey(p) in s.accounts
    && IsAuthorized(env.md5, p, CommandName(m.command), s.accounts[PresentedKey(p)].password, "")
  }

  predicate SpecGranted(env: Env, config: Config, s: Bindings, m: SipMessage, now: int) {
    var p := Presented(config.domain, m.headers);
    && m.MaxForwards() != 0 && !m.command.Response?
    && (m.command.Register? || !s.Live(FromKey(m), now))
    && p.Returned? && SpecPermitted(env, config, s, m, p.value)
  }

  /** What a message means to the registrar. */
  function SpecStep(env: Env, config: Config, s: Bindings, m: SipMessage, now: int): Bindings {
    if !SpecGranted(env, config, s, m, now) || ToKey(m) !in s.accounts then s
    else if m.Expires() <= 0 then s.Unbind(ToKey(m))
    else s.Rebind(ToKey(m), config.domain, Binding(m.proto, m.address.ip, m.address.port, now + m.Expires()))
  }

  // ---------------------------------------------------------------- refinement of one message

  function BindingOf(l: SipLocation): Binding {
    Binding(l.proto, l.host, l.port, l.registered + l.expire)
  }

  function BindingsOf(ls: seq<SipLocation>): seq<Binding> {
    seq(|ls|, i requires 0 <= i < |ls| => BindingOf(ls[i]))
  }

  function AccountOf(a: Address): Account {
    Account(a.id, a.password, a.domain)
  }

  /** At every time from `now` on, exactly the abstract binding of the entry is live. */
  ghost predicate Shows(a: Address, s: Bindings, key: string, now: int) {
    && |a.locations| <= 1
    && key in s.accounts && s.accounts[key] == AccountOf(a)
    && forall t: int {:trigger Clean(a.locations, t)} ::
         now <= t ==> BindingsOf(Clean(a.locations, t)) == if s.Live(key, t) then [s.bound[key]] else []
  }

  ghost predicate Implements(accounts: Accounts, s: Bindings, now: int) {
    accounts.Keys == s.accounts.Keys && s.bound.Keys <= s.accounts.Keys && forall k :: k in accounts ==>
      Shows(accounts[k], s, k, now)
  }

  lemma SameEntryShows(a: Address, b: Address, s: Bindings, key: string, now: int)
    requires Shows(a, s, key, now) && SameEntry(b, a, now) && |b.locations| <= 1
    ensures Shows(b, s, key, now)
  {
    hide Clean, BindingsOf;
    assert b.(locations := []).id == a.id && b.(locations := []).domain == a.domain
      && b.(locations := []).password == a.password;
  }

  lemma ShownLive(accounts: Accounts, s: Bindings, key: string, now: int)
    requires Implements(accounts, s, now)
    ensures LiveAt(accounts, key, now) <==> s.Live(key, now)
  {
    hide Clean;
    if key in accounts {
      assert Shows(accounts[key], s, key, now);
      assert |BindingsOf(Clean(accounts[key].locations, now))| == |Clean(accounts[key].locations, now)|;
    }
  }

  lemma SpecGrantedIff(env: Env, config: Config, accounts: Accounts, s: Bindings, m: SipMessage, now: int)
    requires Implements(accounts, s, now)
    ensures UpdateGranted(env, config, accounts, m, now) <==> SpecGranted(env, config, s, m, now)
  {
    hide Clean, Presented, KeyOf, IsAuthorized, CommandName, LiveAt, ParseInt;
    ShownLive(accounts, s, FromKey(m), now);
    assert forall k :: k in accounts ==> Shows(accounts[k], s, k, now);
  }

  /** Lists of at most one location stay that short through any message. */
  lemma StaysSingle(env: Env, config: Config, accounts: Accounts, m: SipMessage, tag: nat,
                    svc: Endpoint, nonce: string, now: Time)
    requires Single(accounts)
    ensures Single(MessageStep(env, config, accounts, m, tag, svc, nonce, now).accounts)
  {
    hide LocatedAt, Single, Prepare, CallerStep, CalleeStep, CalleeNoted, KeyOf, ResponseStep, ParseInt, Dec;
    if m.MaxForwards() != 0 {
      var m1 := m.WithMaxForwards(ToInt32(m.MaxForwards() - 1));
      if m1.command.Response? {
        ResponseStaysSingle(env, accounts, m1, tag, now);
      } else {
        var start := Prepare(m1, tag);
        var c := CallerStep(env, config, accounts, start.m, start.r, svc, nonce, now);
        CallerStaysSingle(env, config, accounts, start.m, start.r, svc, nonce, now);
        if c.Admitted? {
          LookupStaysSingle(c.accounts, ToKey(c.m), now);
          CalleeStaysSingle(env, config, CalleeAccounts(c.accounts, c.m, now), CalleeNoted(c.accounts, c.m), c.r,
            start.branch,
                            start.tag, svc, nonce, now);
        }
      }
    }
  }

  lemma ResponseStaysSingle(env: Env, accounts: Accounts, m: SipMessage, tag: nat, now: Time)
    requires Single(accounts)
    ensures Single(ResponseStep(env, accounts, m, tag, now).accounts)
  {
    hide LocatedAt, Single, KeyOf, Cyclic, ResponseTouches;
    LookupStaysSingle(accounts, FromKey(m), now);
  }

  lemma CallerStaysSingle(env: Env, config: Config, accounts: Accounts, m: SipMessage, r: SipMessage,
                          svc: Endpoint, nonce: string, now: Time)
    requires Single(accounts)
    ensures Single(CallerStep(env, config, accounts, m, r, svc, nonce, now).accounts)
  {
    hide LocatedAt, PurgedAt, UpdatedAccounts, Single, Presented, Permitted, UpdatedReply, Challenged, UpdateTouches,
      KeyOf, LiveAt;
    var from := FromKey(m);
    LookupStaysSingle(accounts, from, now);
    if from in accounts {
      UpdateStaysSingle(config, PurgedAt(accounts, from, now), m.(keyFrom := accounts[from].Key()), now);
    }
  }

  lemma CalleeStaysSingle(env: Env, config: Config, accounts: Accounts, m: SipMessage, r: SipMessage, branch: string,
                          tag: nat, svc: Endpoint, nonce: string, now: Time)
    requires Single(accounts) && (ToKey(m) in accounts ==> accounts[ToKey(m)].locations != [])
    ensures Single(CalleeStep(env, config, accounts, m, r, branch, tag, svc, nonce, now).accounts)
  {
    hide UpdatedAccounts, Single, Presented, Permitted, UpdatedReply, Challenged, UpdateTouches, CalleeReplies;
    UpdateStaysSingle(config, accounts, m, now);
  }

  predicate Single(accounts: Accounts) {
    forall k :: k in accounts ==> |accounts[k].locations| <= 1
  }

  lemma CleanShrinks(ls: seq<SipLocation>, t: int)
    ensures |Clean(ls, t)| <= |ls|
  {
  }

  lemma LookupStaysSingle(accounts: Accounts, key: string, now: Time)
    requires Single(accounts)
    ensures Single(LocatedAt(accounts, key, now)) && Single(PurgedAt(accounts, key, now))
  {
    hide Clean;
    if key in accounts {
      CleanShrinks(accounts[key].locations, now);
    }
  }

  lemma UpdateStaysSingle(config: Config, accounts: Accounts, m: SipMessage, now: Time)
    requires Single(accounts)
    ensures Single(UpdatedAccounts(config, accounts, m, now))
  {
    hide Clean, KeyOf, ParseInt, FindSame;
    if ToKey(m) in accounts {
      var ls := accounts[ToKey(m)].locations;
      CleanShrinks(ls, now);
      var located := Located(ls, now);
      CleanShrinks([located[0].(expire := m.Expires())] + located[1..], now);
    }
  }

  lemma UpdateShows(config: Config, accounts: Accounts, s: Bindings, m: SipMessage, now: Time)
    requires Implements(accounts, s, now) && ToKey(m) in accounts
    ensures var key := ToKey(m);
            var s' := if m.Expires() <= 0 then s.Unbind(key)
                      else s.Rebind(key, config.domain,
                        Binding(m.proto, m.address.ip, m.address.port, now + m.Expires()));
            Implements(UpdatedAccounts(config, accounts, m, now), s', now)
  {
    hide Clean, KeyOf, ParseInt, Rebound, Unbound, BindingsOf, Shows;
    var key := ToKey(m);
    var s' := if m.Expires() <= 0 then s.Unbind(key)
              else s.Rebind(key, config.domain, Binding(m.proto, m.address.ip, m.address.port, now + m.Expires()));
    var after := UpdatedAccounts(config, accounts, m, now);
    forall k | k in after ensures Shows(after[k], s', k, now) {
      if k == key {
        assert Shows(accounts[k], s, k, now);
        if m.Expires() <= 0 {
          UnboundShows(accounts[k], s, k, m.Expires(), now);
        } else {
          ReboundShows(accounts[k], s, k, config.domain, m.proto, m.address.ip, m.address.port, m.Expires(), now);
        }
      } else {
        OthersShow(accounts[k], s, s', k, now) by { assert Shows(accounts[k], s, k, now); }
      }
    }
  }

  lemma OthersShow(a: Address, s: Bindings, s': Bindings, key: string, now: int)
    requires Shows(a, s, key, now)
    requires key in s'.accounts && s'.accounts[key] == s.accounts[key] && (key in s.bound <==> key in s'.bound)
    requires key in s.bound ==> s.bound[key] == s'.bound[key]
    ensures Shows(a, s', key, now)
  {
    hide Clean, BindingsOf;
  }

  lemma UnboundShows(a: Address, s: Bindings, key: string, expire: Int32, now: Time)
    requires Shows(a, s, key, now) && expire <= 0
    ensures Shows(a.(locations := Unbound(a.locations, expire, now)), s.Unbind(key), key, now)
  {
    hide Unbound;
    CleanShrinks(a.locations, now);
    UnboundExactly(a.locations, expire, now);
    assert BindingsOf([]) == [];
  }

  lemma ReboundShows(a: Address, s: Bindings, key: string, domain: string, proto: Proto, host: string, port: Port,
                     expire: Int32, now: Time)
    requires Shows(a, s, key, now) && expire > 0
    ensures Shows(a.(locations := Rebound(a.locations, proto, host, port, expire, now), domain := domain),
                  s.Rebind(key, domain, Binding(proto, host, port, now + expire)), key, now)
  {
    hide Clean;
    var ls := a.locations;
    CleanShrinks(ls, now);
    var l := Bound(Located(ls, now)[0], proto, host, port, expire, now);
    assert Rebound(ls, proto, host, port, expire, now) == [l];
    forall t: int | now <= t ensures Clean([l], t) == if t <= now + expire then [l] else [] {
      ReboundLive(ls, proto, host, port, expire, now, t);
      EmptyClean(t);
    }
    assert BindingsOf([l]) == [Binding(proto, host, port, now + expire)];
    assert BindingsOf([]) == [];
  }

  lemma EmptyClean(t: int)
    ensures Clean([], t) == []
  {
  }

  /** One message on the real registry is one step of the abstract registrar. */
  lemma MessageRefines(env: Env, config: Config, accounts: Accounts, s: Bindings, m: SipMessage, tag: nat,
                       svc: Endpoint, nonce: string, since: int, now: Time)
    requires Implements(accounts, s, since) && since <= now
    ensures Implements(MessageStep(env, config, accounts, m, tag, svc, nonce, now).accounts,
            SpecStep(env, config, s, m, now), now)
  {
    hide MessageStep, UpdateGranted, SpecGranted, Clean, KeyOf, ParseInt, UpdatedAccounts, BindingsOf, SameEntry, Shows;
    var after := MessageStep(env, config, accounts, m, tag, svc, nonce, now).accounts;
    Later(accounts, s, since, now);
    SpecGrantedIff(env, config, accounts, s, m, now);
    StepEffect(env, config, accounts, m, tag, svc, nonce, now);
    ImplementsIsSingle(accounts, s, now);
    StaysSingle(env, config, accounts, m, tag, svc, nonce, now);
    if UpdateGranted(env, config, accounts, m, now) && ToKey(m) in accounts {
      UpdateShows(config, accounts, s, m, now);
    } else {
      UnknownUpdates(config, accounts, m, now);
    }
    var target := if UpdateGranted(env, config, accounts, m, now) then UpdatedAccounts(config, accounts, m, now)
      else accounts;
    var s' := SpecStep(env, config, s, m, now);
    forall k | k in after ensures Shows(after[k], s', k, now) {
      assert SameEntry(after[k], target[k], now);
      SameEntryShows(target[k], after[k], s', k, now);
    }
  }

  lemma UnknownUpdates(config: Config, accounts: Accounts, m: SipMessage, now: Time)
    ensures ToKey(m) !in accounts ==> UpdatedAccounts(config, accounts, m, now) == accounts
  {
  }

  lemma ImplementsIsSingle(accounts: Accounts, s: Bindings, now: int)
    requires Implements(accounts, s, now)
    ensures Single(accounts)
  {
    hide Clean;
    forall k | k in accounts ensures |accounts[k].locations| <= 1 {
      assert Shows(accounts[k], s, k, now);
    }
  }

  lemma Later(accounts: Accounts, s: Bindings, since: int, now: int)
    requires Implements(accounts, s, since) && since <= now
    ensures Implements(accounts, s, now)
  {
    hide Clean, BindingsOf;
    forall k | k in accounts ensures Shows(accounts[k], s, k, now) {
      assert Shows(accounts[k], s, k, since);
    }
  }

  // ---------------------------------------------------------------- runs

  /** What happens to a registry over its life: a message arrives at one of the dialogs that share it, whose tag
      counter then stands at `tag`; an account is provisioned, a stored registry is loaded on top, the list is
      cleared, expired entries are swept. */
  datatype Event =
    | Received(m: SipMessage, tag: nat, svc: Endpoint, nonce: string)
    | Provisioned(a: Address)
    | Restored(items: seq<Json.Json>)
    | Cleared
    | Swept

  datatype Timed = Timed(now: Time, env: Env, config: Config, event: Event)

  function Happen(accounts: Accounts, e: Timed): Accounts {
    match e.event
    case Received(m, tag, svc, nonce) => MessageStep(e.env, e.config, accounts, m, tag, svc, nonce, e.now).accounts
    case Provisioned(a) => accounts[a.Key() := a]
    case Restored(items) => Json.PutAll(accounts, items)
    case Cleared => map[]
    case Swept => SweptAccounts(accounts, e.now)
  }

  /** An account comes with the binding of its location, if it has one. */
  function SpecPut(s: Bindings, a: Address): Bindings {
    Bindings(s.accounts[a.Key() := AccountOf(a)],
             if a.locations == [] then s.bound - {a.Key()} else s.bound[a.Key() := BindingOf(a.locations[0])])
  }

  function SpecPutAll(s: Bindings, items: seq<Json.Json>): Bindings {
    if items == [] then s
    else SpecPut(SpecPutAll(s, items[..|items| - 1]), Json.AddressOf(items[|items| - 1]))
  }

  function SpecHappen(s: Bindings, e: Timed): Bindings {
    match e.event
    case Received(m, _, _, _) => SpecStep(e.env, e.config, s, m, e.now)
    case Provisioned(a) => SpecPut(s, a)
    case Restored(items) => SpecPutAll(s, items)
    case Cleared => Bindings(map[], map[])
    case Swept =>
      var kept := map k | k in s.accounts && s.Live(k, e.now) :: s.accounts[k];
      Bindings(kept, map k | k in s.bound && k in kept :: s.bound[k])
  }

  /** What an event brings in has at most one location an entry; the control interface brings in none. */
  predicate BringsSingle(e: Event) {
    match e
    case Provisioned(a) => |a.locations| <= 1
    case Restored(items) => forall i :: 0 <= i < |items| ==> |Json.AddressOf(items[i]).locations| <= 1
    case _ => true
  }

  /** Times do not go back. */
  predicate WellTimed(events: seq<Timed>, since: int) {
    && (forall i :: 0 <= i < |events| ==> since <= events[i].now)
    && (forall i, j :: 0 <= i <= j < |events| ==> events[i].now <= events[j].now)
    && (forall i :: 0 <= i < |events| ==> BringsSingle(events[i].event))
  }

  function Run(accounts: Accounts, events: seq<Timed>): Accounts {
    if events == [] then accounts else Happen(Run(accounts, events[..|events| - 1]), events[|events| - 1])
  }

  function SpecRun(s: Bindings, events: seq<Timed>): Bindings {
    if events == [] then s else SpecHappen(SpecRun(s, events[..|events| - 1]), events[|events| - 1])
  }

  lemma ProvisionRefines(accounts: Accounts, s: Bindings, a: Address, now: int)
    requires Implements(accounts, s, now) && |a.locations| <= 1
    ensures Implements(accounts[a.Key() := a], SpecPut(s, a), now)
  {
    hide Clean, BindingsOf, BindingOf, Shows;
    var after, s' := accounts[a.Key() := a], SpecPut(s, a);
    forall k | k in after ensures Shows(after[k], s', k, now) {
      if k == a.Key() {
        OwnShows(a, s', k, now);
      } else {
        assert Shows(accounts[k], s, k, now);
        OthersShow(accounts[k], s, s', k, now);
      }
    }
  }

  lemma OwnShows(a: Address, s: Bindings, key: string, now: int)
    requires |a.locations| <= 1 && key in s.accounts && s.accounts[key] == AccountOf(a)
    requires if a.locations == [] then key !in s.bound else key in s.bound && s.bound[key] == BindingOf(a.locations[0])
    ensures Shows(a, s, key, now)
  {
    hide Clean;
    forall t: int | now <= t
      ensures BindingsOf(Clean(a.locations, t)) == if s.Live(key, t) then [s.bound[key]] else [] {
      if a.locations == [] {
        EmptyClean(t);
      } else {
        CleanOne(a.locations, t);
      }
      SingleBinding(Clean(a.locations, t));
    }
  }

  lemma {:induction false} RestoreRefines(accounts: Accounts, s: Bindings, items: seq<Json.Json>, now: int)
    requires Implements(accounts, s, now) && forall i :: 0 <= i < |items| ==> |Json.AddressOf(items[i]).locations| <= 1
    ensures Implements(Json.PutAll(accounts, items), SpecPutAll(s, items), now)
    decreases |items|
  {
    hide Implements, SpecPut, Json.AddressOf;
    if items != [] {
      var n := |items| - 1;
      RestoreRefines(accounts, s, items[..n], now);
      ProvisionRefines(Json.PutAll(accounts, items[..n]), SpecPutAll(s, items[..n]), Json.AddressOf(items[n]), now);
    }
  }

  lemma SweepRefines(accounts: Accounts, s: Bindings, now: int)
    requires Implements(accounts, s, now)
    ensures var kept := map k | k in s.accounts && s.Live(k, now) :: s.accounts[k];
            Implements(SweptAccounts(accounts, now), Bindings(kept, map k | k in s.bound && k in kept :: s.bound[k]),
              now)
  {
    hide Clean, BindingsOf, Shows, LiveAt;
    var kept := map k | k in s.accounts && s.Live(k, now) :: s.accounts[k];
    var after, s' := SweptAccounts(accounts, now), Bindings(kept, map k | k in s.bound && k in kept :: s.bound[k]);
    forall k | k in accounts ensures k in after <==> k in kept {
      ShownLive(accounts, s, k, now);
    }
    forall k | k in after ensures Shows(after[k], s', k, now) {
      assert Shows(accounts[k], s, k, now);
      OthersShow(accounts[k], s, s', k, now);
    }
  }

  /** Every run of the real registry is a run of the abstract registrar: accounts and, for each, at most one
      binding with a deadline, with no trace of the purges and placeholders in between. */
  lemma {:induction false} RunRefines(accounts: Accounts, s: Bindings, events: seq<Timed>, since: int)
    requires Implements(accounts, s, since) && WellTimed(events, since)
    ensures Implements(Run(accounts, events), SpecRun(s, events),
                       if events == [] then since else events[|events| - 1].now)
    decreases |events|
  {
    hide Implements, MessageStep, SpecStep;
    if events != [] {
      var before, e := events[..|events| - 1], events[|events| - 1];
      RunRefines(accounts, s, before, since);
      var last := if before == [] then since else before[|before| - 1].now;
      var accounts1, s1 := Run(accounts, before), SpecRun(s, before);
      Later(accounts1, s1, last, e.now);
      EventRefines(accounts1, s1, e);
    }
  }

  lemma EventRefines(accounts: Accounts, s: Bindings, e: Timed)
    requires Implements(accounts, s, e.now) && BringsSingle(e.event)
    ensures Implements(Happen(accounts, e), SpecHappen(s, e), e.now)
  {
    hide Implements, MessageStep, SpecStep;
    match e.event
    case Received(m, tag, svc, nonce) => MessageRefines(e.env, e.config, accounts, s, m, tag, svc, nonce, e.now, e.now);
    case Provisioned(a) => ProvisionRefines(accounts, s, a, e.now);
    case Restored(items) => RestoreRefines(accounts, s, items, e.now);
    case Cleared => assert Implements(map[], Bindings(map[], map[]), e.now) by { EmptyImplements(e.now); }
    case Swept => SweepRefines(accounts, s, e.now);
  }

  lemma EmptyImplements(now: int)
    ensures Implements(map[], Bindings(map[], map[]), now)
  {
  }

  /** Seen from outside: after any run, an entry is live exactly as long as the abstract binding says, and its
      first location is that binding. */
  lemma RunLookup(start: Accounts, s: Bindings, events: seq<Timed>, since: int, key: string, t: int)
    requires Implements(start, s, since) && WellTimed(events, since)
    requires since <= t && forall i :: 0 <= i < |events| ==> events[i].now <= t
    ensures var accounts, spec := Run(start, events), SpecRun(s, events);
            (LiveAt(accounts, key, t) <==> spec.Live(key, t)) &&
            (LiveAt(accounts, key, t) ==> BindingOf(Clean(accounts[key].locations, t)[0]) == spec.bound[key])
  {
    hide Clean, Run, SpecRun, Implements, Shows;
    RunRefines(start, s, events, since);
    var accounts, spec := Run(start, events), SpecRun(s, events);
    Later(accounts, spec, if events == [] then since else events[|events| - 1].now, t);
    ShownLive(accounts, spec, key, t);
    if LiveAt(accounts, key, t) {
      ShownBinding(accounts, spec, key, t);
    }
  }

  lemma ShownBinding(accounts: Accounts, s: Bindings, key: string, t: int)
    requires Implements(accounts, s, t) && LiveAt(accounts, key, t)
    ensures s.Live(key, t) && BindingOf(Clean(accounts[key].locations, t)[0]) == s.bound[key]
  {
    hide Clean;
    assert Shows(accounts[key], s, key, t);
    var live := Clean(accounts[key].locations, t);
    assert |BindingsOf(live)| == |live| && BindingsOf(live)[0] == BindingOf(live[0]);
  }

  // ---------------------------------------------------------------- the abstraction of a registry

  function Abstraction(accounts: Accounts, now: int): Bindings {
    Bindings(map k | k in accounts :: AccountOf(accounts[k]),
             map k | k in accounts && LiveAt(accounts, k, now) :: BindingOf(Clean(accounts[k].locations, now)[0]))
  }

  /** Any registry with at most one location per entry implements its own abstraction. */
  lemma AbstractionImplements(accounts: Accounts, now: int)
    requires Single(accounts)
    ensures Implements(accounts, Abstraction(accounts, now), now)
  {
    hide Clean, BindingsOf;
    var s := Abstraction(accounts, now);
    forall k | k in accounts ensures Shows(accounts[k], s, k, now) {
      forall t: int | now <= t
        ensures BindingsOf(Clean(accounts[k].locations, t)) == if s.Live(k, t) then [s.bound[k]] else []
      {
        SingleClean(accounts[k].locations, now, t);
        SingleBinding(Clean(accounts[k].locations, t));
      }
    }
  }

  lemma SingleClean(ls: seq<SipLocation>, now: int, t: int)
    requires |ls| <= 1 && now <= t
    ensures |Clean(ls, t)| <= 1
            && (Clean(ls, t) != [] ==> Clean(ls, t) == Clean(ls, now) == ls && t <= BindingOf(ls[0]).deadline)
    ensures Clean(ls, now) != [] && t <= BindingOf(Clean(ls, now)[0]).deadline ==> Clean(ls, t) != []
  {
    if ls != [] {
      assert ls[1..] == [] && ls == [ls[0]];
      EmptyClean(t);
      EmptyClean(now);
    }
  }

  lemma SingleBinding(ls: seq<SipLocation>)
    requires |ls| <= 1
    ensures BindingsOf(ls) == if ls == [] then [] else [BindingOf(ls[0])]
  {
  }

  /** A granted registration keeps To reachable until exactly `now` plus its expiry. */
  lemma RegisteredUntil(env: Env, config: Config, accounts: Accounts, m: SipMessage, tag: nat,
                        svc: Endpoint, nonce: string, now: Time, t: int)
    requires Single(accounts) && UpdateGranted(env, config, accounts, m, now) && ToKey(m) in accounts && now <= t
    ensures LiveAt(MessageStep(env, config, accounts, m, tag, svc, nonce, now).accounts, ToKey(m), t)
            <==> m.Expires() > 0 && t <= now + m.Expires()
  {
    hide MessageStep, UpdateGranted, SpecGranted, Clean, KeyOf, ParseInt, Implements, LiveAt, Abstraction;
    var s := Abstraction(accounts, now);
    AbstractionImplements(accounts, now);
    MessageRefines(env, config, accounts, s, m, tag, svc, nonce, now, now);
    SpecGrantedIff(env, config, accounts, s, m, now);
    SameAccounts(accounts, s, now);
    var after, s' := MessageStep(env, config, accounts, m, tag, svc, nonce, now).accounts,
      SpecStep(env, config, s, m, now);
    Later(after, s', now, t);
    ShownLive(after, s', ToKey(m), t);
  }

  lemma SameAccounts(accounts: Accounts, s: Bindings, now: int)
    requires Implements(accounts, s, now)
    ensures accounts.Keys == s.accounts.Keys
  {
  }
}
