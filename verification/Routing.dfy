/** Where messages go: forwarded requests, relayed responses, answers, and how many hops they can make
    (SipDialog.cpp; sections 16.3 and 16.6 of RFC 3261). */
module Routing {
  import opened Wrappers
  import opened Text
  import opened Locations
  import opened AddressText
  import opened AccountMap
  import opened Messages
  import opened DigestPrinter
  import opened Proxy
  import opened Registrar

  /** The first location of an entry that is live at `now`. */
  function LiveLocation(accounts: Accounts, key: string, now: int): SipLocation
    requires LiveAt(accounts, key, now)
  {
    Clean(accounts[key].locations, now)[0]
  }

  /** `f` is addressed to the location: its transport, its port, and an address its host resolves to. */
  predicate SentTo(env: Env, f: SipMessage, l: SipLocation) {
    f.proto == l.proto && env.resolve(l.host) == Some(f.address.ip) && f.address.port == l.port % 0x1_0000
  }

  /** A copy of a request that may go to the callee, with its hop count and callee still in place. */
  predicate CopyOf(m: SipMessage, a: Address, f: SipMessage) {
    && f.command == m.command && f.body == m.body && f.sentCode == m.sentCode && f.conn == m.conn
    && Get(f.headers, "Max-Forwards") == Get(m.headers, "Max-Forwards")
    && Get(f.headers, "T") == a.TaggedUri()
    && f.key == m.key
  }

  // ---------------------------------------------------------------- the callee's side

  /** `r` answers the sender of `m`, and has not been sent by any listener yet. */
  predicate Answers(m: SipMessage, r: SipMessage) {
    r.command.Response? && r.proto == m.proto && r.address == m.address && r.sentCode == {} && r.conn == None
  }

  lemma AnswersRespond(m: SipMessage, r: SipMessage)
    requires Answers(m, r)
    ensures r.command.Response?
  {
  }

  predicate NeedsCallee(c: Command) {
    c.Ack? || c.Cancel? || c.Invite? || c.Options? || c.Bye? || c.Message?
  }

  /** OPTIONS between different users, or any of the other requests for the callee. */
  predicate GoesOn(accounts: Accounts, m: SipMessage) {
    && NeedsCallee(m.command) && ToKey(m) in accounts
    && (m.command.Options? ==> FromKey(m) in accounts && accounts[FromKey(m)].id != accounts[ToKey(m)].id)
  }

  predicate Resolves(env: Env, host: string) {
    env.resolve(host).Some?
  }

  lemma HeaderNamesDiffer()
    ensures "T" != "V" && "T" != "L" && "V" != "L" && |"Max-Forwards"| == 12
  {
    assert "T"[0] == 'T' && "V"[0] == 'V' && "L"[0] == 'L';
  }

  lemma RoutedCopy(env: Env, a: Address, m: SipMessage)
    requires a.locations != []
    ensures Routed(env, a, m).Some? <==> Resolves(env, a.locations[0].host)
    ensures Routed(env, a, m).Some? ==>
            CopyOf(m, a, Routed(env, a, m).value) && SentTo(env, Routed(env, a, m).value, a.locations[0])
    ensures Routed(env, a, m).Some? ==> Get(Routed(env, a, m).value.headers, "V") == Get(m.headers, "V")
  {
    HeaderNamesDiffer();
  }

  lemma RewrittenViaKeepsCopy(env: Env, m: SipMessage, a: Address, l: SipLocation, f: SipMessage, value: string)
    requires CopyOf(m, a, f) && SentTo(env, f, l)
    ensures CopyOf(m, a, f.WithHeader("V", value)) && SentTo(env, f.WithHeader("V", value), l)
    ensures CopyOf(m, a, f.WithHeader("L", value)) && SentTo(env, f.WithHeader("L", value), l)
  {
    HeaderNamesDiffer();
  }

  /** The messages a request to the callee produces: at most one answer to the caller, then at most one copy,
      addressed to the callee's first location. */
  ghost predicate Fanout(env: Env, m: SipMessage, a: Address, replies: seq<SipMessage>, copied: bool)
    requires a.locations != []
  {
    && |replies| <= 2
    && (|replies| == 2 ==> replies[0].command.Response?)
    && (copied <==> replies != [] && !replies[|replies| - 1].command.Response?)
    && forall f :: f in replies ==>
         if f.command.Response? then Answers(m, f)
         else copied && f == replies[|replies| - 1] && CopyOf(m, a, f) && SentTo(env, f, a.locations[0])
  }

  lemma CalledFanout(env: Env, a: Address, m: SipMessage, received: string)
    requires a.locations != [] && NeedsCallee(m.command)
    ensures Fanout(env, m, a, Called(env, a, m, received), Resolves(env, a.locations[0].host))
  {
    hide CopyOf, SentTo, Transported, Routed;
    var m' := m.(commandParam := a.Uri());
    RoutedCopy(env, a, m');
    match Routed(env, a, m')
    case None =>
    case Some(f) =>
      CommandParamIsNotCompared(m, a, f);
      RewrittenViaKeepsCopy(env, m, a, a.locations[0], f, Transported(f.proto, Get(f.headers, "V")));
      var v := Validated(f);
      RewrittenViaKeepsCopy(env, m, a, a.locations[0], v, Get(v.headers, "V") + ";" + "received" + "=" + received);
      CopiesAreRequests(m, a, v.AddParameter("V", "received", received));
  }

  lemma CommandParamIsNotCompared(m: SipMessage, a: Address, f: SipMessage)
    requires CopyOf(m.(commandParam := a.Uri()), a, f)
    ensures CopyOf(m, a, f)
  {
  }

  lemma CopiesAreRequests(m: SipMessage, a: Address, f: SipMessage)
    requires CopyOf(m, a, f) && NeedsCallee(m.command)
    ensures !f.command.Response?
  {
  }

  lemma AnswerFanout(env: Env, a: Address, m: SipMessage, r: SipMessage)
    requires a.locations != [] && Answers(m, r)
    ensures Fanout(env, m, a, [r], false) && Fanout(env, m, a, [], false)
  {
  }

  lemma ByeFanout(env: Env, a: Address, m: SipMessage)
    requires a.locations != [] && NeedsCallee(m.command)
    ensures var f := Routed(env, a, m);
            Fanout(env, m, a, if f.None? then [] else [Validated(f.value)], Resolves(env, a.locations[0].host))
  {
    hide CopyOf, SentTo, Transported, Routed;
    RoutedCopy(env, a, m);
    var f := Routed(env, a, m);
    if f.Some? {
      RewrittenViaKeepsCopy(env, m, a, a.locations[0], f.value, Transported(f.value.proto, Get(f.value.headers, "V")));
      CopiesAreRequests(m, a, Validated(f.value));
    }
  }

  lemma MessageFanout(env: Env, a: Address, m: SipMessage, r: SipMessage, svc: Endpoint, branch: string, len: string)
    requires a.locations != [] && NeedsCallee(m.command)
    requires Answers(m, r)
    ensures var f := Routed(env, a, m);
            Fanout(env, m, a, [r] + if f.None? then []
              else [Relabelled(f.value, svc, branch, len)], Resolves(env, a.locations[0].host))
  {
    hide CopyOf, SentTo, Routed, Upper, Dec;
    RoutedCopy(env, a, m);
    var f := Routed(env, a, m);
    if f.Some? {
      var via := "SIP/2.0/" + Upper(ProtoName(f.value.proto)) + " " + svc.ip + ":" + Dec(svc.port) + ";" + branch;
      RewrittenViaKeepsCopy(env, m, a, a.locations[0], f.value, via);
      RewrittenViaKeepsCopy(env, m, a, a.locations[0], f.value.WithHeader("V", via), len);
      CopiesAreRequests(m, a, Relabelled(f.value, svc, branch, len));
    }
  }

  /** One dispatch to the callee.  OPTIONS does not test whether the callee is registered: it relies on the
      placeholder's empty host not resolving. */
  lemma CalleeFanout(env: Env, config: Config, accounts: Accounts, m: SipMessage, r: SipMessage, branch: string,
                     svc: Endpoint, now: Time)
    requires env.resolve("") == None
    requires NeedsCallee(m.command) && ToKey(m) in accounts && accounts[ToKey(m)].locations != []
    requires !FirstIsLive(accounts[ToKey(m)], now) ==> accounts[ToKey(m)].locations[0] == PLACEHOLDER
    requires Answers(m, r)
    ensures var a := accounts[ToKey(m)];
            Fanout(env, m, a, CalleeReplies(env, config, accounts, m, r, branch, svc, now),
                   GoesOn(accounts, m) && FirstIsLive(a, now) && Resolves(env, a.locations[0].host))
  {
    hide Called, Routed, Fanout, Validated, Relabelled, KeyOf, Transported, Dec;
    var a := accounts[ToKey(m)];
    AnswerFanout(env, a, m, NotFound(r));
    match m.command
    case Ack | Cancel => CalledFanout(env, a, m, m.address.ip);
    case Invite => CalledFanout(env, a, m, if m.address.port == 0 then config.ip else m.address.ip);
    case Options =>
      AnswerFanout(env, a, m, Capabilities(r, m.address.ip));
      CalledFanout(env, a, m, m.address.ip);
    case Bye => ByeFanout(env, a, m);
    case Message => MessageFanout(env, a, m, r.(code := 200).WithHeader("L", "0"), svc, branch, Get(r.headers, "L"));
  }

  // ---------------------------------------------------------------- the whole step

  /** The caller gets past the first half of the step. */
  predicate CallerAdmitted(env: Env, config: Config, accounts: Accounts, m: SipMessage, now: int) {
    || FromKey(m) !in accounts
    || m.command.Register?
    || LiveAt(accounts, FromKey(m), now)
    || Granted(env, config, accounts, m)
  }

  /** `n` is `m` as far as forwarding reads it. */
  predicate ForwardsLike(m: SipMessage, n: SipMessage) {
    && n.command == m.command && n.body == m.body && n.proto == m.proto && n.address == m.address
    && n.sentCode == m.sentCode && n.conn == m.conn
    && Get(n.headers, "Max-Forwards") == Get(m.headers, "Max-Forwards")
    && Get(n.headers, "T") == Get(m.headers, "T") && Get(n.headers, "F") == Get(m.headers, "F")
  }

  lemma PreparedForwards(m: SipMessage, tag: nat)
    ensures ForwardsLike(m, Prepare(m, tag).m) && Answers(m, Prepare(m, tag).r)
            && Answers(Prepare(m, tag).m, Prepare(m, tag).r)
  {
    hide ReplaceParameter, ParameterOf, HasParameter, Dec;
  }

  lemma CallerOutcome(env: Env, config: Config, accounts: Accounts, m: SipMessage, r: SipMessage,
                      svc: Endpoint, nonce: string, now: Time)
    requires Answers(m, r)
    ensures var c := CallerStep(env, config, accounts, m, r, svc, nonce, now);
            (c.Admitted? ==> ForwardsLike(m, c.m)) && (!c.CallerThrew? ==> Answers(m, c.r))
  {
    hide PurgedAt, LocatedAt, LiveAt, Questioned, KeyOf, Dec;
    var from := FromKey(m);
    if from in accounts {
      QuestionedOutcome(env, config, PurgedAt(accounts, from, now), m.(keyFrom := accounts[from].Key()), r, svc, nonce,
        now);
    }
  }

  lemma QuestionedOutcome(env: Env, config: Config, accounts: Accounts, m: SipMessage, r: SipMessage,
                          svc: Endpoint, nonce: string, now: Time)
    requires Answers(m, r)
    ensures var c := Questioned(env, config, accounts, m, r, svc, nonce, now);
            (c.Admitted? ==> ForwardsLike(m, c.m)) && (!c.CallerThrew? ==> Answers(m, c.r))
  {
    hide Presented, Permitted, UpdatedAccounts, KeyOf, GetValue, Dec, ParseInt, ChallengeParams;
  }

  lemma CallerPasses(env: Env, config: Config, accounts: Accounts, m: SipMessage, r: SipMessage,
                     svc: Endpoint, nonce: string, now: Time)
    ensures CallerStep(env, config, accounts, m, r, svc, nonce, now).Admitted? <==>
            CallerAdmitted(env, config, accounts, m, now)
  {
    hide PurgedAt, LocatedAt, LiveAt, Presented, Permitted, UpdatedAccounts, KeyOf, UpdatedReply, UpdateTouches,
      Challenged, ReadsLike;
    var from := FromKey(m);
    if from in accounts {
      var n := m.(keyFrom := accounts[from].Key());
      LookupKeepsView(accounts, from, now);
      SameViewSymmetric(PurgedAt(accounts, from, now), accounts, now);
      RenamedReadsLike(m, accounts[from].Key());
      SameGrant(env, config, accounts, PurgedAt(accounts, from, now), m, n, now);
      SameReading(m, n, config.domain);
    }
  }

  lemma RenamedReadsLike(m: SipMessage, key: string)
    ensures ReadsLike(m, m.(keyFrom := key))
  {
  }

  lemma LocatedFirst(accounts: Accounts, key: string, now: Time)
    requires key in accounts
    ensures var a := LocatedAt(accounts, key, now)[key];
            (FirstIsLive(a, now) <==> LiveAt(LocatedAt(accounts, key, now), key, now)) &&
            (FirstIsLive(a, now) ==> LiveLocation(LocatedAt(accounts, key, now), key, now) == a.locations[0]) &&
            (!FirstIsLive(a, now) ==> a.locations[0] == PLACEHOLDER)
  {
    hide Clean;
    var ls := accounts[key].locations;
    LookupKeepsLive(ls, now, now);
    if Clean(ls, now) != [] {
      assert Clean(ls, now)[0] in Clean(ls, now);
    }
  }

  /** A copy of the request, addressed to the first live location of the registry it left. */
  predicate LeavesAs(env: Env, accounts: Accounts, m: SipMessage, now: int, f: SipMessage) {
    && f.command == m.command && f.body == m.body && f.sentCode == m.sentCode && f.conn == m.conn
    && LiveAt(accounts, ToKey(m), now) && SentTo(env, f, LiveLocation(accounts, ToKey(m), now))
    && Get(f.headers, "Max-Forwards") == Dec(ToInt32(m.MaxForwards() - 1))
    && Get(f.headers, "T") == accounts[ToKey(m)].TaggedUri()
    && f.key == accounts[ToKey(m)].Key()
  }

  predicate CopyDue(env: Env, config: Config, before: Accounts, after: Accounts, m: SipMessage, now: int) {
    && CallerAdmitted(env, config, before, m, now) && GoesOn(after, m)
    && LiveAt(after, ToKey(m), now) && Resolves(env, LiveLocation(after, ToKey(m), now).host)
  }

  /** The outcome in terms of the registry after the step, as the command switch finds it. */
  ghost predicate StepOutcome(env: Env, config: Config, before: Accounts, after: Accounts, m: SipMessage, now: int,
                              replies: seq<SipMessage>)
  {
    && |replies| <= 2
    && (|replies| == 2 ==> replies[0].command.Response?)
    && (CopyDue(env, config, before, after, m, now) <==> replies != [] && !replies[|replies| - 1].command.Response?)
    && forall f :: f in replies ==>
         if f.command.Response? then Answers(m, f) else f == replies[|replies| - 1] && LeavesAs(env, after, m, now, f)
  }

  lemma StepRouting(env: Env, config: Config, accounts: Accounts, m: SipMessage, tag: nat,
                    svc: Endpoint, nonce: string, now: Time)
    requires env.resolve("") == None
    requires !m.command.Response? && m.MaxForwards() != 0
    ensures var s := MessageStep(env, config, accounts, m, tag, svc, nonce, now);
            StepOutcome(env, config, accounts, s.accounts, m, now, s.replies)
  {
    hide Prepare, CallerStep, CalleeStep, CalleeNoted, CalleeAccounts, LocatedAt, KeyOf, CallerAdmitted, StepOutcome,
      ForwardsLike, Answers, Dec, ParseInt;
    var m1 := m.WithMaxForwards(ToInt32(m.MaxForwards() - 1));
    var start := Prepare(m1, tag);
    PreparedForwards(m1, tag);
    CallerOutcome(env, config, accounts, start.m, start.r, svc, nonce, now);
    CallerPasses(env, config, accounts, start.m, start.r, svc, nonce, now);
    var c := CallerStep(env, config, accounts, start.m, start.r, svc, nonce, now);
    CountedDown(m, m1);
    AdmittedAlike(env, config, accounts, m, m1, tag, now);
    match c
    case CallerThrew(accounts1, m2) =>
      NothingOutcome(env, config, accounts, accounts1, m, now);
    case Refused(accounts1, m2, r2) =>
      AnswersThrough(m, m1, start.m, r2);
      AnswerOutcome(env, config, accounts, accounts1, m, now, r2);
    case Admitted(accounts1, m2, r2) =>
      AnswersThrough(m, m1, start.m, r2);
      ForwardsThrough(m1, start.m, m2);
      CalleeOutcome(env, config, accounts, accounts1, m, m1, m2, r2, start.branch, start.tag, svc, nonce, now);
  }

  /** A message without hops left changes nothing and is not answered. */
  lemma Dropped(env: Env, config: Config, accounts: Accounts, m: SipMessage, tag: nat,
                svc: Endpoint, nonce: string, now: Time)
    requires m.MaxForwards() == 0
    ensures var s := MessageStep(env, config, accounts, m, tag, svc, nonce, now);
            s.replies == [] && s.accounts == accounts
  {
    hide ParseInt;
  }

  lemma CountedDown(m: SipMessage, m1: SipMessage)
    requires m1 == m.WithMaxForwards(ToInt32(m.MaxForwards() - 1))
    ensures Get(m1.headers, "Max-Forwards") == Dec(ToInt32(m.MaxForwards() - 1))
    ensures Get(m1.headers, "T") == Get(m.headers, "T") && Get(m1.headers, "F") == Get(m.headers, "F")
  {
    hide Dec, ParseInt;
    HeaderNames();
  }

  lemma AdmittedAlike(env: Env, config: Config, accounts: Accounts, m: SipMessage, m1: SipMessage, tag: nat, now: Time)
    requires m1 == m.WithMaxForwards(ToInt32(m.MaxForwards() - 1))
    ensures CallerAdmitted(env, config, accounts, m, now) <==>
            CallerAdmitted(env, config, accounts, Prepare(m1, tag).m, now)
  {
    hide Prepare, Granted, LiveAt, KeyOf, ParseInt, Dec;
    var n := Prepare(m1, tag).m;
    PreparedReadsLike(m, tag);
    SameReading(m, n, config.domain);
    SameViewReflexive(accounts, now);
    SameGrant(env, config, accounts, accounts, m, n, now);
  }

  lemma AnswersThrough(m: SipMessage, m1: SipMessage, n: SipMessage, r: SipMessage)
    requires m1 == m.WithMaxForwards(ToInt32(m.MaxForwards() - 1)) && ForwardsLike(m1, n)
    ensures Answers(n, r) ==> Answers(m, r)
  {
    hide Dec, ParseInt;
  }

  lemma ForwardsThrough(a: SipMessage, b: SipMessage, c: SipMessage)
    requires ForwardsLike(a, b) && ForwardsLike(b, c)
    ensures ForwardsLike(a, c)
  {
  }

  lemma NothingOutcome(env: Env, config: Config, before: Accounts, after: Accounts, m: SipMessage, now: int)
    requires !CopyDue(env, config, before, after, m, now)
    ensures StepOutcome(env, config, before, after, m, now, [])
  {
    hide CopyDue, Answers, LeavesAs;
  }

  lemma AnswerOutcome(env: Env, config: Config, before: Accounts, after: Accounts, m: SipMessage, now: int,
                      r: SipMessage)
    requires !CopyDue(env, config, before, after, m, now) && Answers(m, r)
    ensures StepOutcome(env, config, before, after, m, now, [r])
  {
    hide CopyDue, LeavesAs;
  }

  lemma CalleeOutcome(env: Env, config: Config, accounts: Accounts, accounts1: Accounts, m: SipMessage, m1: SipMessage,
                      m2: SipMessage, r: SipMessage, branch: string, tag: nat, svc: Endpoint, nonce: string, now: Time)
    requires env.resolve("") == None && CallerAdmitted(env, config, accounts, m, now)
    requires m1 == m.WithMaxForwards(ToInt32(m.MaxForwards() - 1)) && ForwardsLike(m1, m2) && Answers(m, r)
    requires !m.command.Response?
    ensures var s := CalleeStep(env, config, CalleeAccounts(accounts1, m2, now), CalleeNoted(accounts1, m2), r, branch,
            tag, svc, nonce, now);
            StepOutcome(env, config, accounts, s.accounts, m, now, s.replies)
  {
    hide LocatedAt, KeyOf, CallerAdmitted, StepOutcome, Dec, ParseInt, CalleeReplies, Presented, Permitted,
      UpdatedAccounts, Challenged, UpdatedReply, CalleeNoted, GoesOn, ForwardsLike;
    var located, noted := CalleeAccounts(accounts1, m2, now), CalleeNoted(accounts1, m2);
    CountedDown(m, m1);
    NotedForwards(accounts1, m1, m2);
    SameKeys(m, m1, noted);
    if NeedsCallee(m.command) {
      if ToKey(m) in located {
        LocatedFirst(accounts1, ToKey(m), now);
        LocatedKeepsKey(accounts1, ToKey(m), now);
        CalleeFanout(env, config, located, noted, r, branch, svc, now);
        GoesOnAlike(located, m, noted);
        FanoutOutcome(env, config, accounts, located, m, m1, noted, now,
          CalleeReplies(env, config, located, noted, r, branch, svc, now));
      } else {
        NoCallee(env, config, located, noted, r, branch, svc, now);
        NotGoing(located, m);
        NothingOutcome(env, config, accounts, located, m, now);
      }
    } else {
      var s := CalleeStep(env, config, located, noted, r, branch, tag, svc, nonce, now);
      OtherReplies(env, config, located, noted, r, branch, tag, svc, nonce, now);
      NotGoing(s.accounts, m);
      if s.replies == [] {
        NothingOutcome(env, config, accounts, s.accounts, m, now);
      } else {
        AnswerOutcome(env, config, accounts, s.accounts, m, now, s.replies[0]);
        assert s.replies == [s.replies[0]];
      }
    }
  }

  lemma NotedForwards(accounts: Accounts, m1: SipMessage, m2: SipMessage)
    requires ForwardsLike(m1, m2)
    ensures ForwardsLike(m1, CalleeNoted(accounts, m2))
    ensures ToKey(m2) in accounts ==> CalleeNoted(accounts, m2).key == accounts[ToKey(m2)].Key()
  {
    hide KeyOf;
  }

  lemma SameKeys(m: SipMessage, m1: SipMessage, n: SipMessage)
    requires m1 == m.WithMaxForwards(ToInt32(m.MaxForwards() - 1)) && ForwardsLike(m1, n)
    ensures ToKey(m) == ToKey(n) && FromKey(m) == FromKey(n) && m.command == n.command && m.body == n.body
    ensures m.proto == n.proto && m.address == n.address && m.sentCode == n.sentCode && m.conn == n.conn
    ensures Get(n.headers, "Max-Forwards") == Dec(ToInt32(m.MaxForwards() - 1))
  {
    hide KeyOf, Dec, ParseInt;
    CountedDown(m, m1);
  }

  lemma GoesOnAlike(accounts: Accounts, m: SipMessage, n: SipMessage)
    requires ToKey(m) == ToKey(n) && FromKey(m) == FromKey(n) && m.command == n.command
    ensures GoesOn(accounts, m) <==> GoesOn(accounts, n)
  {
    hide KeyOf;
  }

  lemma NoCallee(env: Env, config: Config, accounts: Accounts, m: SipMessage, r: SipMessage, branch: string,
                 svc: Endpoint, now: Time)
    requires ToKey(m) !in accounts
    ensures CalleeReplies(env, config, accounts, m, r, branch, svc, now) == []
  {
  }

  lemma NotGoing(accounts: Accounts, m: SipMessage)
    ensures ToKey(m) !in accounts || !NeedsCallee(m.command) ==> !GoesOn(accounts, m)
  {
  }

  lemma OtherReplies(env: Env, config: Config, accounts: Accounts, m: SipMessage, r: SipMessage, branch: string,
                     tag: nat, svc: Endpoint, nonce: string, now: Time)
    requires !NeedsCallee(m.command) && Answers(m, r) && (ToKey(m) in accounts ==> accounts[ToKey(m)].locations != [])
    ensures var replies := CalleeStep(env, config, accounts, m, r, branch, tag, svc, nonce, now).replies;
            |replies| <= 1 && (replies != [] ==> Answers(m, replies[0]))
  {
    hide Presented, Permitted, UpdatedAccounts, KeyOf, GetValue, ParseInt, Dec;
  }

  lemma FanoutOutcome(env: Env, config: Config, before: Accounts, after: Accounts, m: SipMessage, m1: SipMessage,
                      n: SipMessage, now: Time, replies: seq<SipMessage>)
    requires CallerAdmitted(env, config, before, m, now) && ToKey(m) in after && after[ToKey(m)].locations != []
    requires m1 == m.WithMaxForwards(ToInt32(m.MaxForwards() - 1)) && ForwardsLike(m1, n)
             && n.key == after[ToKey(m)].Key()
    requires var a := after[ToKey(m)];
             (FirstIsLive(a, now) <==> LiveAt(after, ToKey(m), now)) &&
             (FirstIsLive(a, now) ==> LiveLocation(after, ToKey(m), now) == a.locations[0]) &&
             Fanout(env, n, a, replies, GoesOn(after, m) && FirstIsLive(a, now) && Resolves(env, a.locations[0].host))
    ensures StepOutcome(env, config, before, after, m, now, replies)
  {
    hide KeyOf, CallerAdmitted, Dec, ParseInt, LiveAt, FirstIsLive, GoesOn, Resolves, SentTo, LiveLocation;
    SameKeys(m, m1, n);
  }

  // ---------------------------------------------------------------- from the registry before the message

  /** To is live once the message's own update, if it is granted one, is made: a positive expiry sees to that, and
      any other leaves what is live behind the one or two bindings it removes. */
  predicate LiveNext(env: Env, config: Config, accounts: Accounts, m: SipMessage, now: Time) {
    if !UpdateGranted(env, config, accounts, m, now) || ToKey(m) !in accounts then LiveAt(accounts, ToKey(m), now)
    else m.Expires() > 0 || |Clean(accounts[ToKey(m)].locations, now)| > Removals(accounts[ToKey(m)].locations,
      m.Expires(), now)
  }

  /** How many live bindings an update without a positive expiry removes, if there are that many. */
  function Removals(ls: seq<SipLocation>, expire: int, now: int): nat {
    var live := Clean(ls, now);
    if live != [] && live[0].registered + expire < now then 2 else 1
  }

  /** The location To is then reached at. */
  function NextLocation(env: Env, config: Config, accounts: Accounts, m: SipMessage, now: Time): SipLocation
    requires LiveNext(env, config, accounts, m, now)
  {
    if !UpdateGranted(env, config, accounts, m, now) || ToKey(m) !in accounts then LiveLocation(accounts, ToKey(m), now)
    else
      var ls := accounts[ToKey(m)].locations;
      if m.Expires() > 0 then Bound(Located(ls, now)[0], m.proto, m.address.ip, m.address.port, m.Expires(), now)
      else Clean(ls, now)[Removals(ls, m.Expires(), now)]
  }

  lemma SameLiveLocation(a: Accounts, b: Accounts, key: string, now: int)
    requires SameView(a, b, now)
    ensures key in a <==> key in b
    ensures LiveAt(a, key, now) <==> LiveAt(b, key, now)
    ensures LiveAt(a, key, now) ==> LiveLocation(a, key, now) == LiveLocation(b, key, now)
    ensures key in a ==> a[key].id == b[key].id
  {
    hide Clean;
    if key in a {
      assert SameEntry(a[key], b[key], now);
      assert Clean(a[key].locations, now) == Clean(b[key].locations, now);
      assert a[key].(locations := []).id == b[key].(locations := []).id;
    }
  }

  /** What an update makes of To's live locations. */
  lemma UpdatedLocation(config: Config, accounts: Accounts, m: SipMessage, now: Time)
    requires ToKey(m) in accounts
    ensures var u, ls := UpdatedAccounts(config, accounts, m, now), accounts[ToKey(m)].locations;
            var live := m.Expires() > 0 || |Clean(ls, now)| > Removals(ls, m.Expires(), now);
            (LiveAt(u, ToKey(m), now) <==> live) &&
            (live ==> LiveLocation(u, ToKey(m), now) ==
                      if m.Expires() > 0
                      then Bound(Located(ls, now)[0], m.proto, m.address.ip, m.address.port, m.Expires(), now)
                      else Clean(ls, now)[Removals(ls, m.Expires(), now)])
  {
    hide KeyOf, ParseInt, Clean, Rebound, Unbound;
    var ls := accounts[ToKey(m)].locations;
    if m.Expires() > 0 {
      ReboundLive(ls, m.proto, m.address.ip, m.address.port, m.Expires(), now, now);
    } else {
      UnboundExactly(ls, m.Expires(), now);
      CleanLive(Unbound(ls, m.Expires(), now), now);
    }
  }

  lemma NextIsAfter(env: Env, config: Config, accounts: Accounts, m: SipMessage, tag: nat,
                    svc: Endpoint, nonce: string, now: Time)
    ensures var after := MessageStep(env, config, accounts, m, tag, svc, nonce, now).accounts;
            (LiveAt(after, ToKey(m), now) <==> LiveNext(env, config, accounts, m, now)) &&
            (LiveNext(env, config, accounts, m, now) ==>
               LiveLocation(after, ToKey(m), now) == NextLocation(env, config, accounts, m, now)) &&
            (forall key :: (key in after <==> key in accounts) && (key in after ==> after[key].id == accounts[key].id))
  {
    hide MessageStep, UpdateGranted, UpdatedAccounts, KeyOf, ParseInt, SameView, LiveAt, LiveLocation, Clean, Located,
      Removals;
    var after := MessageStep(env, config, accounts, m, tag, svc, nonce, now).accounts;
    var target := if UpdateGranted(env, config, accounts, m, now) then UpdatedAccounts(config, accounts, m, now)
      else accounts;
    StepEffect(env, config, accounts, m, tag, svc, nonce, now);
    SameLiveLocation(after, target, ToKey(m), now);
    forall key ensures (key in after <==> key in accounts) && (key in after ==> after[key].id == accounts[key].id) {
      SameLiveLocation(after, target, key, now);
      UpdateKeepsUser(config, accounts, m, now, key);
    }
    if ToKey(m) in accounts {
      UpdatedLocation(config, accounts, m, now);
    } else {
      UpdateKeepsUser(config, accounts, m, now, ToKey(m));
      NotLive(target, ToKey(m), now);
      NotLive(accounts, ToKey(m), now);
    }
  }

  lemma UpdateKeepsUser(config: Config, accounts: Accounts, m: SipMessage, now: Time, key: string)
    ensures var u := UpdatedAccounts(config, accounts, m, now);
            (key in u <==> key in accounts) && (key in u ==> u[key].id == accounts[key].id)
  {
    hide KeyOf, ParseInt, Rebound, Unbound;
  }

  lemma NotLive(accounts: Accounts, key: string, now: int)
    requires key !in accounts
    ensures !LiveAt(accounts, key, now)
  {
  }

  /** A request can be forwarded: its caller is admitted, it is one for a callee that is known, and the callee
      is live at a host that resolves once the message's own update is made.  All of it is read off the registry
      before the message. */
  predicate CanForward(env: Env, config: Config, accounts: Accounts, m: SipMessage, now: Time) {
    && CallerAdmitted(env, config, accounts, m, now) && GoesOn(accounts, m)
    && LiveNext(env, config, accounts, m, now) && Resolves(env, NextLocation(env, config, accounts, m, now).host)
  }

  /** What the forwarded copy of a request looks like; To is written from the entry as the step leaves it. */
  predicate ForwardedCopy(env: Env, config: Config, before: Accounts, after: Accounts, m: SipMessage, now: Time,
                          f: SipMessage) {
    && f.command == m.command && f.body == m.body && f.sentCode == m.sentCode && f.conn == m.conn
    && LiveNext(env, config, before, m, now) && SentTo(env, f, NextLocation(env, config, before, m, now))
    && Get(f.headers, "Max-Forwards") == Dec(ToInt32(m.MaxForwards() - 1))
    && ToKey(m) in after && Get(f.headers, "T") == after[ToKey(m)].TaggedUri() && f.key == after[ToKey(m)].Key()
  }

  /** The outcome of a request: at most one answer, which carries the transport and the address of the request,
      then at most one copy, which goes to the location To is reached at.  There is a copy exactly when the
      request can be forwarded. */
  ghost predicate RequestOutcome(env: Env, config: Config, before: Accounts, after: Accounts, m: SipMessage, now: Time,
                                 replies: seq<SipMessage>)
  {
    && |replies| <= 2
    && (|replies| == 2 ==> replies[0].command.Response?)
    && (CanForward(env, config, before, m, now) <==> replies != [] && !replies[|replies| - 1].command.Response?)
    && forall f :: f in replies ==>
         if f.command.Response? then Answers(m, f)
         else f == replies[|replies| - 1] && ForwardedCopy(env, config, before, after, m, now, f)
  }

  lemma RequestRouting(env: Env, config: Config, accounts: Accounts, m: SipMessage, tag: nat,
                       svc: Endpoint, nonce: string, now: Time)
    requires env.resolve("") == None
    requires !m.command.Response? && m.MaxForwards() != 0
    ensures var s := MessageStep(env, config, accounts, m, tag, svc, nonce, now);
            RequestOutcome(env, config, accounts, s.accounts, m, now, s.replies)
  {
    hide MessageStep, CallerAdmitted, Answers, LiveNext, NextLocation, LiveAt, LiveLocation, KeyOf, ParseInt, Dec,
      SentTo, Resolves;
    StepRouting(env, config, accounts, m, tag, svc, nonce, now);
    NextIsAfter(env, config, accounts, m, tag, svc, nonce, now);
    var after := MessageStep(env, config, accounts, m, tag, svc, nonce, now).accounts;
    KnownWhenLive(after, ToKey(m), now);
  }

  lemma KnownWhenLive(accounts: Accounts, key: string, now: int)
    ensures LiveAt(accounts, key, now) ==> key in accounts
  {
  }
}
