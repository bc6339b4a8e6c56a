/** Inputs on which the registrar does not do what it is for, one for each condition proved elsewhere
    (SipDialog.cpp, SipAddress.cpp).  They hold for every hash function. */
module Shortfalls {
  import opened Wrappers
  import opened Text
  import opened Locations
  import opened AddressText
  import opened AccountMap
  import opened Messages
  import opened Digest
  import opened DigestPrinter
  import opened DigestRoundTrip
  import opened DigestResponse
  import opened Contacts
  import opened Json
  import opened Proxy
  import opened Registrar
  import opened RegistrarRuns
  import opened Routing
  import opened Hops
  import opened Chains
  import opened Answering
  import opened ConnectionIndex
  import opened Delivery
  import opened Listeners
  import opened EndToEnd
  import opened Rebinding
  import opened Parameters

  function User(id: string, domain: string, password: string, locations: seq<SipLocation>): Address {
    Address(FromRegistry, locations, password, "", "", id, domain, 0, "")
  }

  const HOME := SipLocation(Udp, SipPrefix, "10.0.0.2", 5062, "", "", "", 3600, 100)
  const AWAY := SipLocation(Tcp, SipPrefix, "10.0.0.3", 5063, "", "", "", 3600, 100)
  const SENDER := Endpoint("10.0.0.9", 5069)
  const NOON: Time := 200

  /** A name server that takes every non-empty name for an address. */
  function Names(md5: Md5): Env {
    Env(host => if host == "" then None else Some(host), md5)
  }

  const ALICE := User("alice", "new", "apple", [])
  const BOB := User("bob", "new", "berry", [HOME])
  const CAROL := User("carol", "old", "cherry", [])
  const DAVE := User("dave", "new", "", [])
  const ACCOUNTS: Accounts := map[ALICE.Key() := ALICE, BOB.Key() := BOB, CAROL.Key() := CAROL]
  const CONFIG := Config("new", "10.0.0.1", "new")

  /** A request between two users, with one hop left and the default expiry of an hour. */
  function Request(c: Command, from: Address, to: Address): SipMessage {
    SipMessage(map["F" := from.TaggedUri(), "T" := to.TaggedUri()], "", c, 0, "", Udp, SENDER, "", "", {}, None)
  }

  lemma RequestReads(c: Command, from: Address, to: Address)
    requires Free(from.id, '@') && Free(to.id, '@') && AllHostChars(from.domain) && AllHostChars(to.domain)
    requires Free(from.domain, '@')
    ensures var m := Request(c, from, to);
            FromKey(m) == from.Key() && ToKey(m) == to.Key() && m.MaxForwards() == 1 && m.Expires() == 3600
            && Id(Get(m.headers, "F")) == from.id
  {
    hide *;
    RequestHeaders(c, from, to);
    OwnTextsResolve(from);
    OwnTextsResolve(to);
    UserOf(from);
    CountsOf(Request(c, from, to));
    KeysOf(Request(c, from, to));
  }

  lemma RequestHeaders(c: Command, from: Address, to: Address)
    ensures var h := Request(c, from, to).headers;
            Get(h, "F") == from.TaggedUri() && Get(h, "T") == to.TaggedUri() && Get(h, "Max-Forwards") == ""
              && Get(h, "Expires") == ""
  {
    hide Address.TaggedUri;
    assert "F"[0] == 'F' && "T"[0] == 'T' && |"Max-Forwards"| == 12 && |"Expires"| == 7;
  }

  lemma UserOf(a: Address)
    requires Free(a.id, '@') && Free(a.domain, '@') && KeyOf(a.TaggedUri()) == a.Key()
    ensures Id(a.TaggedUri()) == a.id
  {
    hide Id, AddressText.Domain, Address.TaggedUri;
    IdAndDomainAreClean(a.TaggedUri());
    KeySplits(Id(a.TaggedUri()), AddressText.Domain(a.TaggedUri()), a.id, a.domain);
  }

  lemma CountsOf(m: SipMessage)
    requires Get(m.headers, "Max-Forwards") == "" && Get(m.headers, "Expires") == ""
    ensures m.MaxForwards() == 1 && m.Expires() == 3600
  {
  }

  lemma KeysOf(m: SipMessage)
    ensures FromKey(m) == KeyOf(Get(m.headers, "F")) && ToKey(m) == KeyOf(Get(m.headers, "T"))
  {
  }

  lemma AccountsAreKeyed()
    ensures Keyed(ACCOUNTS) && ALICE.Key() in ACCOUNTS && BOB.Key() in ACCOUNTS && CAROL.Key() in ACCOUNTS
            && Single(ACCOUNTS)
    ensures ACCOUNTS[ALICE.Key()] == ALICE && ACCOUNTS[BOB.Key()] == BOB && ACCOUNTS[CAROL.Key()] == CAROL
    ensures ALICE.Key() != BOB.Key()
  {
    assert ALICE.Key()[0] == 'a' && BOB.Key()[0] == 'b' && CAROL.Key()[0] == 'c';
  }

  /** Alice, with her own password, sends the request. */
  function FromAlice(md5: Md5, c: Command, to: Address): SipMessage {
    WithAnswer(Names(md5), Request(c, ALICE, to), "apple", BLANK.(username := "alice"))
  }

  lemma AliceIsGranted(md5: Md5, c: Command, to: Address)
    requires (c.Register? || c.Invite?) && (to == BOB || to == CAROL || to == DAVE)
    ensures var m := FromAlice(md5, c, to);
            UpdateGranted(Names(md5), CONFIG, ACCOUNTS, m, NOON) && FromKey(m) == ALICE.Key() && ToKey(m) == to.Key()
            && m.MaxForwards() == 1 && m.Expires() == 3600 && m.command == c && m.address == SENDER && m.proto == Udp
  {
    hide UpdateGranted, WithAnswer, KeyOf, Id, ParseInt, CommaFreeInput, Keyed, Single, Clean;
    var m, q := Request(c, ALICE, to), BLANK.(username := "alice");
    AccountsAreKeyed();
    RequestReads(c, ALICE, to);
    assert CommaFreeInput(q) by { PlainName(); }
    AnswerReads(Names(md5), m, "apple", q);
    NobodyHome();
    AnswerDecides(Names(md5), CONFIG, ACCOUNTS, m, "apple", q, NOON);
    Envelope(Names(md5), m, "apple", q);
  }

  lemma Envelope(env: Env, m: SipMessage, password: string, q: AuthParams)
    ensures WithAnswer(env, m, password, q).address == m.address && WithAnswer(env, m, password, q).proto == m.proto
  {
  }

  lemma PlainName()
    ensures CommaFreeInput(BLANK.(username := "alice"))
  {
  }

  lemma NobodyHome()
    ensures !LiveAt(ACCOUNTS, ALICE.Key(), NOON)
  {
    AccountsAreKeyed();
  }

  /** A REGISTER of Alice's that names Bob in To binds Bob to Alice's address. */
  lemma RegistersForAnother(md5: Md5, tag: nat, svc: Endpoint, nonce: string)
    ensures var m := FromAlice(md5, Register, BOB);
            var after := MessageStep(Names(md5), CONFIG, ACCOUNTS, m, tag, svc, nonce, NOON).accounts;
            !OnlyFromChanges(ACCOUNTS, after, m, NOON) && LiveAt(after, BOB.Key(), NOON)
            && LiveLocation(after, BOB.Key(), NOON).host == SENDER.ip
  {
    hide MessageStep, UpdateGranted, FromAlice, KeyOf, ParseInt, OnlyFromChanges, SameView, UpdatedAccounts, LiveAt,
      LiveLocation;
    var env, m := Names(md5), FromAlice(md5, Register, BOB);
    AliceIsGranted(md5, Register, BOB);
    AccountsAreKeyed();
    BobMoves(m);
    OthersStayUnlessGranted(env, CONFIG, ACCOUNTS, m, tag, svc, nonce, NOON);
    StepEffect(env, CONFIG, ACCOUNTS, m, tag, svc, nonce, NOON);
    SameLiveLocation(MessageStep(env, CONFIG, ACCOUNTS, m, tag, svc, nonce, NOON).accounts,
                     UpdatedAccounts(CONFIG, ACCOUNTS, m, NOON), BOB.Key(), NOON);
  }

  /** Before, Bob was live at home; after the update he is live at the sender's address. */
  lemma BobMoves(m: SipMessage)
    requires ToKey(m) == BOB.Key() && m.Expires() == 3600 && m.address == SENDER && m.proto == Udp
    ensures !UpdateIsIdle(CONFIG, BOB, m, NOON)
    ensures var u := UpdatedAccounts(CONFIG, ACCOUNTS, m, NOON);
            LiveAt(u, BOB.Key(), NOON) && LiveLocation(u, BOB.Key(), NOON).host == SENDER.ip
  {
    hide KeyOf, ParseInt, Rebound;
    AccountsAreKeyed();
    assert [HOME][1..] == [];
    assert Clean([HOME], NOON) == [HOME];
    ReboundLive([HOME], m.proto, m.address.ip, m.address.port, m.Expires(), NOON, NOON);
  }

  /** An INVITE of Alice's to Bob, who is reachable, does the same to Bob's binding and so comes back to Alice. */
  lemma InviteComesBack(md5: Md5, tag: nat, svc: Endpoint, nonce: string)
    ensures LiveAt(ACCOUNTS, BOB.Key(), NOON) && LiveLocation(ACCOUNTS, BOB.Key(), NOON) == HOME
    ensures var s := MessageStep(Names(md5), CONFIG, ACCOUNTS, FromAlice(md5, Invite, BOB), tag, svc, nonce, NOON);
            exists f :: f in s.replies && f.command.Invite? && f.address == SENDER
  {
    hide MessageStep, FromAlice, KeyOf, ParseInt, UpdateGranted, CanForward, LiveAt, LiveLocation;
    var env, m := Names(md5), FromAlice(md5, Invite, BOB);
    var n := Node(env, CONFIG, ACCOUNTS, tag, svc, nonce, NOON);
    BobIsHome();
    AliceIsGranted(md5, Invite, BOB);
    AccountsAreKeyed();
    GrantedCanForward(env, m);
    ForwardedWhateverCount(n, m);
    var f :| f in n.Handle(m).replies && f.command == m.command;
    CopyDestination(env, CONFIG, ACCOUNTS, m, tag, svc, nonce, NOON, f);
  }

  lemma BobIsHome()
    ensures LiveAt(ACCOUNTS, BOB.Key(), NOON) && LiveLocation(ACCOUNTS, BOB.Key(), NOON) == HOME
  {
    AccountsAreKeyed();
    assert [HOME][1..] == [];
    assert Clean([HOME], NOON) == [HOME];
  }

  lemma GrantedCanForward(env: Env, m: SipMessage)
    requires UpdateGranted(env, CONFIG, ACCOUNTS, m, NOON) && m.command.Invite? && ToKey(m) == BOB.Key()
    requires m.Expires() == 3600 && env.resolve(m.address.ip).Some?
    ensures CanForward(env, CONFIG, ACCOUNTS, m, NOON)
  {
    hide Granted, KeyOf, ParseInt, Clean, Located;
    AccountsAreKeyed();
  }

  /** A REGISTER of Alice's for Carol, an account of another domain that was in the registry before the registry's
      domain changed, leaves Carol's entry under a key that is no longer its own. */
  lemma KeyGoesWrong(md5: Md5, tag: nat, svc: Endpoint, nonce: string)
    ensures Keyed(ACCOUNTS)
    ensures !Keyed(MessageStep(Names(md5), CONFIG, ACCOUNTS, FromAlice(md5, Register, CAROL), tag, svc, nonce,
            NOON).accounts)
  {
    hide MessageStep, UpdateGranted, FromAlice, KeyOf, ParseInt, Keyed;
    AliceIsGranted(md5, Register, CAROL);
    AccountsAreKeyed();
    assert "old"[0] == 'o' && "new"[0] == 'n';
    KeysStayRight(Names(md5), CONFIG, ACCOUNTS, FromAlice(md5, Register, CAROL), tag, svc, nonce, NOON);
  }

  /** A REGISTER of Alice's for a user who has no account is answered with 200, and binds nothing. */
  lemma ConfirmsUnknown(md5: Md5, tag: nat, svc: Endpoint, nonce: string)
    ensures var m := FromAlice(md5, Register, DAVE);
            var s := MessageStep(Names(md5), CONFIG, ACCOUNTS, m, tag, svc, nonce, NOON);
            m.Expires() > 0 && Status(s.replies) == Some(200) && SameView(s.accounts, ACCOUNTS, NOON)
            && !LiveAt(s.accounts, ToKey(m), NOON)
  {
    hide MessageStep, UpdateGranted, FromAlice, KeyOf, ParseInt, SameView, LiveAt, Garbled;
    var env, m := Names(md5), FromAlice(md5, Register, DAVE);
    AliceIsGranted(md5, Register, DAVE);
    assert DAVE.Key() !in ACCOUNTS by { DaveIsUnknown(); }
    if Garbled(m) {
      GarbledIsNotGranted(env, CONFIG, ACCOUNTS, m, NOON);
    }
    RegisterAnswer(env, CONFIG, ACCOUNTS, m, tag, svc, nonce, NOON);
    StepEffect(env, CONFIG, ACCOUNTS, m, tag, svc, nonce, NOON);
    ConfirmedIsBound(env, CONFIG, ACCOUNTS, m, tag, svc, nonce, NOON);
  }

  lemma DaveIsUnknown()
    ensures DAVE.Key() !in ACCOUNTS
  {
    assert DAVE.Key()[0] == 'd' && ALICE.Key()[0] == 'a' && BOB.Key()[0] == 'b' && CAROL.Key()[0] == 'c';
  }

  /** An entry with two live locations, as a stored registry can hold it, loses both when it is unregistered. */
  lemma UnregistersBoth()
    ensures var a := AddressOf(AddressJson(User("bob", "new", "berry", [HOME, AWAY]), true));
            Clean(a.locations, NOON) == [HOME, AWAY] && Unbound(a.locations, 0, NOON) == []
  {
    hide AddressOf, AddressJson, Unbound;
    AddressRoundTrip(User("bob", "new", "berry", [HOME, AWAY]), true);
    CleanLive([HOME, AWAY], NOON);
    UnboundExactly([HOME, AWAY], 0, NOON);
  }

  // ---------------------------------------------------------------- two accounts of one name

  const UNA_OLD := User("una", "old", "first", [])
  const UNA_NEW := User("una", "new", "second", [])
  const UNAS: Accounts := map[UNA_OLD.Key() := UNA_OLD, UNA_NEW.Key() := UNA_NEW]

  /** The password of una@old is good for updates of una@new: the client's header says whose password to check. */
  lemma OtherPasswordGrants(md5: Md5)
    ensures UNA_OLD.password != UNA_NEW.password
    ensures var q := BLANK.(username := "una", domain := "old");
            var m := WithAnswer(Names(md5), Request(Register, UNA_NEW, UNA_NEW), "first", q);
            Keyed(UNAS) && UpdateGranted(Names(md5), CONFIG, UNAS, m, NOON) && FromKey(m) == UNA_NEW.Key()
  {
    hide WithAnswer, KeyOf, ParseInt, Id, CommaFreeInput, IsAuthorized, Clean, Answered, AuthorizationResponse,
      Presented, Single;
    var env, q := Names(md5), BLANK.(username := "una", domain := "old");
    var m0 := Request(Register, UNA_NEW, UNA_NEW);
    var m := WithAnswer(env, m0, "first", q);
    UnasAreKeyed();
    RequestReads(Register, UNA_NEW, UNA_NEW);
    assert CommaFreeInput(q) by { PlainOld(); }
    AnswerPresented(env, CONFIG, m0, "first", q);
    AnswerReads(env, m0, "first", q);
    var p := Answered(md5, CommandName(m.command), "first", "", q);
    AnswerFits(md5, CommandName(m.command), "first", q);
    assert PresentedKey(p) == UNA_OLD.Key();
    assert Permitted(env, CONFIG, UNAS, m, p);
  }

  lemma AnswerFits(md5: Md5, request: string, password: string, q: AuthParams)
    ensures var p := Answered(md5, request, password, "", q);
            IsAuthorized(md5, p, request, password, "") && p.username == q.username && p.domain == q.domain
            && p.(domain := p.domain) == p
  {
    hide H, Hex;
  }

  lemma PlainOld()
    ensures CommaFreeInput(BLANK.(username := "una", domain := "old"))
  {
  }

  lemma UnasAreKeyed()
    ensures Keyed(UNAS) && UNA_OLD.Key() in UNAS && UNA_NEW.Key() in UNAS
    ensures UNAS[UNA_OLD.Key()] == UNA_OLD && UNAS[UNA_NEW.Key()] == UNA_NEW && UNA_OLD.password != UNA_NEW.password
  {
    assert UNA_OLD.Key()[4] == 'o' && UNA_NEW.Key()[4] == 'n';
    assert "first"[0] == 'f' && "second"[0] == 's';
  }

  /** The Authorization header of Alice's REGISTER for Bob is good at any later time, from anywhere, and for Carol. */
  lemma HeaderIsGoodAgain(md5: Md5, elsewhere: Endpoint, at: Time)
    ensures var m := FromAlice(md5, Register, BOB);
            var again := m.(address := elsewhere).WithHeader("T", CAROL.TaggedUri());
            UpdateGranted(Names(md5), CONFIG, ACCOUNTS, m, NOON)
              && UpdateGranted(Names(md5), CONFIG, ACCOUNTS, again, at)
            && ToKey(again) == CAROL.Key()
  {
    hide UpdateGranted, FromAlice, KeyOf, ParseInt, Address.TaggedUri;
    var m := FromAlice(md5, Register, BOB);
    var again := m.(address := elsewhere).WithHeader("T", CAROL.TaggedUri());
    AliceIsGranted(md5, Register, BOB);
    OwnTextsResolve(CAROL);
    HeaderNames();
    assert "F"[0] == 'F' && "T"[0] == 'T' && |"Max-Forwards"| == 12 && |"Authorization"| == 13;
    assert again.MaxForwards() == m.MaxForwards();
    GrantIgnoresNonce(Names(md5), CONFIG, ACCOUNTS, ACCOUNTS, m, again, NOON, at);
  }

  // ---------------------------------------------------------------- one key on two connections

  /** Both connections were confirmed as Alice's, the second one later. */
  const TAKEN := [Open(1, false), Assign(1, "alice@new"), Open(2, false), Assign(2, "alice@new")]
  const LEFT := TAKEN + [Close(2)]

  /** A SUBSCRIBE of the first connection, with the key that connection has. */
  const SUBSCRIPTION := SipMessage(map[], "", Subscribe, 0, "", Ws, Endpoint("0.0.0.0", 0), "alice@new", "", {}, None)

  function Over(events: seq<ConnectionIndex.Event>): Net {
    Net([SOCKET_ERROR, SOCKET_ERROR, SOCKET_ERROR, SOCKET_ERROR], true, After(events))
  }

  /** It is answered over the second connection, and not at all once that is closed, although the first one is open. */
  lemma AnswerGoesElsewhere(md5: Md5, tag: nat, svc: Endpoint, nonce: string)
    ensures var s := MessageStep(Names(md5), CONFIG, map[], SUBSCRIPTION, tag, svc, nonce, NOON);
            Disciplined(TAKEN) && Disciplined(LEFT) && IsOpen(LEFT, 1) && 1 in After(TAKEN).connections
            && After(TAKEN).connections[1].key == "alice@new" && |s.replies| == 1 && Over(TAKEN).Valid()
               && Over(LEFT).Valid()
            && HandedTo(RespondAll(Over(TAKEN), 1, s.m, CONFIG.domain, s.replies, [true]).attempts, 2)
            && RespondAll(Over(LEFT), 1, s.m, CONFIG.domain, s.replies, [true]).attempts == []
  {
    hide *;
    var s := MessageStep(Names(md5), CONFIG, map[], SUBSCRIPTION, tag, svc, nonce, NOON);
    TakenHistory();
    SubscriptionAnswer(Names(md5), tag, svc, nonce);
    AnsweredOver(s.m, s.replies);
  }

  lemma AnsweredOver(request: SipMessage, rs: seq<SipMessage>)
    requires |rs| == 1 && request.command.Subscribe?
    requires var r := rs[0]; r.command.Response? && r.proto == Ws && r.key == "alice@new" && r.sentCode == {}
    ensures Over(TAKEN).Valid() && Over(LEFT).Valid()
    ensures HandedTo(RespondAll(Over(TAKEN), 1, request, CONFIG.domain, rs, [true]).attempts, 2)
    ensures RespondAll(Over(LEFT), 1, request, CONFIG.domain, rs, [true]).attempts == []
    ensures 1 in After(TAKEN).connections && After(TAKEN).connections[1].key == "alice@new"
  {
    hide After, Expected, RespondAll;
    TakenIndex();
    OneReply(Over(TAKEN), request, rs);
    OneReply(Over(LEFT), request, rs);
    KeyDecides(Over(TAKEN), rs[0].(conn := Some(1)));
    KeyDecides(Over(LEFT), rs[0].(conn := Some(1)));
  }

  lemma TakenIndex()
    ensures After(TAKEN) == Index(map[1 := ConnectionState("alice@new", Some(1), false),
            2 := ConnectionState("alice@new", Some(2), false)],
                                  map["alice@new" := 2])
    ensures After(LEFT) == Index(map[1 := ConnectionState("alice@new", Some(1), false)], map["alice@new" := 2])
  {
    var e1, e2 := [Open(1, false)], [Open(1, false), Assign(1, "alice@new")];
    var e3 := e2 + [Open(2, false)];
    assert e1[..0] == [] && e2[..1] == e1 && e3[..2] == e2 && TAKEN[..3] == e3 && LEFT[..4] == TAKEN;
    assert After(e1) == Index(map[1 := ConnectionState("", Some(1), false)], map[]);
    assert After(e2) == Index(map[1 := ConnectionState("alice@new", Some(1), false)], map["alice@new" := 1]);
    assert After(e3) == Index(map[1 := ConnectionState("alice@new", Some(1), false),
      2 := ConnectionState("", Some(2), false)],
                              map["alice@new" := 1]);
  }

  lemma TakenHistory()
    ensures Disciplined(TAKEN) && Disciplined(LEFT) && IsOpen(LEFT, 1)
  {
    assert OpenAt(TAKEN[..1], 1, 0) && OpenAt(TAKEN[..3], 2, 2);
    assert LEFT[..1] == TAKEN[..1] && LEFT[..3] == TAKEN[..3];
    assert OpenAt(LEFT, 1, 0);
    assert IsOpen(TAKEN[..1], 1) && IsOpen(TAKEN[..3], 2);
  }

  lemma SubscriptionAnswer(env: Env, tag: nat, svc: Endpoint, nonce: string)
    ensures var s := MessageStep(env, CONFIG, map[], SUBSCRIPTION, tag, svc, nonce, NOON);
            |s.replies| == 1 && s.m.command.Subscribe? &&
            var r := s.replies[0]; r.command.Response? && r.proto == Ws && r.key == "alice@new" && r.sentCode == {}
  {
    hide Prepare, Dec, KeyOf, ParseInt;
    assert SUBSCRIPTION.MaxForwards() == 1 by { CountsOf(SUBSCRIPTION); }
    var m1 := SUBSCRIPTION.WithMaxForwards(ToInt32(SUBSCRIPTION.MaxForwards() - 1));
    PreparedKey(m1, tag);
    PreparedForwards(m1, tag);
  }

  lemma OneReply(net: Net, request: SipMessage, rs: seq<SipMessage>)
    requires net.Valid() && net.linked && 1 in net.index.connections && request.command.Subscribe?
    requires |rs| == 1 && rs[0].sentCode == {}
    ensures RespondAll(net, 1, request, CONFIG.domain, rs, [true]).attempts == Expected(net, rs[0].(conn := Some(1)))
  {
    hide Respond, Expected, Passes;
    assert rs[..0] == [] && [true][..0] == [];
    OneResponse(net, 1, request, CONFIG.domain, rs[0], true);
  }

  lemma KeyDecides(net: Net, r: SipMessage)
    requires net.Valid() && r.command.Response? && r.proto == Ws && r.key != ""
    ensures Expected(net, r) == match net.index.Lookup(r.key) case None => [] case Some(s) => [ToConnection(s)]
  {
  }

  // ---------------------------------------------------------------- texts that do not come back

  /** A stored registry with a domain and no default address. */
  lemma AddressIsFilledIn()
    ensures Loaded(map[], RegistryJson(Stored("new", "", map[]), [], true)) != Stored("new", "", map[])
  {
    hide Loaded, RegistryJson;
    assert Lists([], {});
    StoreRoundTrip(Stored("new", "", map[]), [], true);
  }

  /** A comma in a user name. */
  lemma CommaCuts()
    ensures var p := BLANK.(username := "bob,jr"); ParseHeader(BLANK, GetValue(p, true)) != Returned(p)
  {
    hide ParseHeader, GetValue;
    var p := BLANK.(username := "bob,jr");
    assert p.username[3] == ',';
    HeaderRoundTrip(p);
  }

  /** A colon in a display name, and an address behind one. */
  lemma NamesSpoilContacts()
    ensures Id(Contact(BOB.(commonName := "Mr: Bob"))) != BOB.id
    ensures Id(Contact(BOB.(commonName := "x:eve@home"))) == "eve"
  {
    hide Id, Contact, IndexOf;
    var plain, speaking := "Mr: Bob", "x:eve@home";
    assert plain[2] == ':' && forall i :: 0 <= i < |plain| ==> plain[i] != '@';
    ColonInName(BOB.(commonName := plain));
    SpeakingName(speaking);
    NameIsRead(BOB.(commonName := speaking));
  }

  /** Two hosts with hyphens are the same to the registry, which reads them up to there. */
  lemma HyphensCut()
    ensures KeyOf("sip:bob@my-home.org") == "bob@my" == KeyOf("sip:bob@my-work.org")
  {
    hide *;
    HostUpToHyphen("sip:bob@my-home.org", "-home.org");
    HostUpToHyphen("sip:bob@my-work.org", "-work.org");
  }

  lemma HostUpToHyphen(line: string, rest: string)
    requires line == "sip" + ":" + "bob" + "@" + "my" + rest && rest != "" && rest[0] == '-'
    ensures KeyOf(line) == "bob@my"
  {
    hide Id, AddressText.Domain, HasHost, HostStart, HostEnd;
    ParsesAs(line, "sip", "bob", "my", rest);
    assert "bob" + "@" + "my" == "bob@my";
  }

  /** A branch with a parameter behind it is read with that parameter. */
  lemma BranchRunsOn()
    ensures ParameterOf("SIP/2.0/UDP a;branch=z9;rport", "branch") == "z9;rport"
  {
    hide *;
    BranchStands("SIP/2.0/UDP a;branch=z9;rport", "SIP/2.0/UDP a;");
    ParameterRunsOn("SIP/2.0/UDP a;branch=z9;rport", "SIP/2.0/UDP a;", "branch", "z9", ";rport");
    assert "z9" + ";rport" == "z9;rport";
  }

  lemma BranchStands(v: string, before: string)
    requires v == before + "branch" + "=" + "z9" + ";rport" && before == "SIP/2.0/UDP a;"
    ensures HoldsParameter(v, before, "branch", "z9", ";rport")
  {
    assert v[|before|..|before| + 6] == "branch";
    assert forall i :: 0 <= i < |before| ==> v[i] == before[i] && v[i] != 'b';
    assert forall i: nat :: i < |before| ==> (OccursAt(v, "branch", i) ==> v[i] == v[i..i + 6][0]);
  }

  lemma SpeakingName(name: string)
    requires name == "x" + ":" + "eve" + "@" + "home" + ""
    ensures NameSpeaks(name) && Id(Blanked(name)) == "eve"
  {
    hide IndexOf;
    assert Blanked(name) == name;
    IndexOfFirst(name, ':', 0, 1);
    IndexOfFirst(name, '@', 2, 5);
    ParsesAs(name, "x", "eve", "home", "");
  }
}
