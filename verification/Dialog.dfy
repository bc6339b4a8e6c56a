/** The dialog object: one message at a time through the shared registry (SipDialog.cpp). */
module Dialog {
  import opened Wrappers
  import opened Text
  import opened Locations
  import opened AddressText
  import opened AccountMap
  import opened Messages
  import opened Digest
  import opened DigestPrinter
  import opened DigestResponse
  import opened Proxy
  import opened Addresses
  import opened Registry

  datatype Verdict = Admit | Refuse | Throw

  class SipDialog {
    var tag: nat
    const registry: SipRegistry
    const authDomain: string
    const env: Env

    constructor (registry: SipRegistry, env: Env)
      ensures tag == 0 && this.registry == registry && this.env == env && authDomain == registry.domain
    {
      tag := 0;
      this.registry, this.env, authDomain := registry, env, registry.domain;
    }

    function Configuration(): Config
      reads registry
    {
      Config(registry.domain, registry.ip, authDomain)
    }

    method GetTag(m: SipMessage) returns (t: string)
      modifies this`tag
      ensures t == TagText(m, old(tag)) && tag == TagAfter(m, old(tag))
    {
      hide ParameterOf, Dec;
      t := ParameterOf(Get(m.headers, "F"), "tag");
      if t == "" {
        tag := tag + 1;
        if tag > 999999 {
          tag := 1;
        }
        t := Dec(tag);
      }
    }

    /** The answer skeleton and the branch, built before the registry is consulted. */
    method PrepareAnswer(m0: SipMessage) returns (m: SipMessage, r: SipMessage, branch: string)
      modifies this`tag
      ensures Prelude(m, r, branch, tag) == Prepare(m0, old(tag))
    {
      hide ParameterOf, Dec, HasParameter, ReplaceParameter, TagText, TagAfter;
      r := ReplyTo(m0).Touched("T");
      if !HasParameter(Get(r.headers, "T"), "tag") {
        var t := GetTag(m0);
        r := r.AddParameter("T", "tag", t);
      }
      r := r.WithHeader("V", ReplaceParameter(Get(r.headers, "V"), "rport", "rport=" + Dec(m0.address.port)));
      branch := ParameterOf(Get(m0.headers, "V"), "branch");
      if branch == "" {
        var t := GetTag(m0);
        branch := "branch=z9hG4bK" + t;
      } else {
        branch := "branch=" + branch;
      }
      m := m0.Touched("V").Touched("F");
    }

    /** The AuthParams constructor. */
    method ReadCredentials(headers: Headers) returns (p: Outcome<AuthParams>)
      ensures p == Presented(registry.domain, headers)
    {
      hide ParseHeader;
      if "Authorization" !in headers {
        return Returned(BLANK);
      }
      var complete, parsed := ParseAuthorizationHeader(BLANK, headers["Authorization"]);
      p := parsed;
      if p.Returned? && p.value.domain == "" {
        p := Returned(p.value.(domain := registry.domain));
      }
    }

    method IsByUser(id: string, domain: string, m: SipMessage) returns (b: bool)
      ensures b == Proxy.IsByUser(registry.View(), id, domain, m)
    {
      hide KeyOf;
      var a := registry.GetByAddress(Get(m.headers, "F"));
      b := a != null && a.id == id && a.domain == domain;
    }

    method Authenticate(request: string, p: AuthParams) returns (b: bool)
      ensures b == Authenticates(env, registry.View(), request, p)
    {
      hide AuthorizationResponse;
      if p.username == "" {
        return false;
      }
      var a := registry.GetById(p.username, p.domain);
      b := a != null && IsAuthorized(env.md5, p, request, a.password, "");
    }

    method AddWWWAuthenticate(m: SipMessage, r0: SipMessage, svc: Endpoint, nonce: string) returns (r: SipMessage)
      ensures r == Challenged(env, Configuration(), m, r0, svc, nonce)
    {
      hide GetValue, H, Id;
      var a := new SipAddress.Parse(NoProto, Get(m.headers, "F"), 0, registry.parseTime);
      var p := BLANK.(username := a.id, uri := "sip:" + svc.ip, realm := registry.domain, nonce := nonce,
                      opaqueData := H(env.md5, authDomain + nonce));
      var value := PrintValue(p, true);
      r := r0.(code := 401).WithHeader("WWW-Authenticate", value);
    }

    /** The writes of updateLocation through the reference to the entry's first location. */
    method WriteLocation(a: SipAddress, m: SipMessage, expire: Int32, now: Time)
      modifies a
      ensures a.Value() == UpdatedEntry(registry.domain, old(a.Value()), m, expire, now)
    {
      hide Located, Locations.Clean, FindSame;
      a.GetLocation(now);
      a.locations := a.locations[0 := a.locations[0].(expire := expire)];
      UpdateWrites(old(a.locations), m, expire, now);
      if expire <= 0 {
        var found := a.RmLocation(FirstSlot, now);
      } else {
        a.domain := registry.domain;
        a.locations := a.locations[0 := Bound(a.locations[0], m.proto, m.address.ip, m.address.port, expire, now)];
      }
    }

    /** The same writes, seen in the registry. */
    method WriteEntry(a: SipAddress, ghost key: string, m: SipMessage, expire: Int32, now: Time)
      requires registry.Valid() && key in registry.list && registry.list[key] == a
      modifies a
      ensures registry.View()
              == old(registry.View())[key := UpdatedEntry(registry.domain, old(registry.View())[key], m, expire, now)]
    {
      hide UpdatedEntry;
      WriteLocation(a, m, expire, now);
    }

    method UpdateLocation(m0: SipMessage, r0: SipMessage, now: Time) returns (m: SipMessage, r: SipMessage)
      requires registry.Valid()
      modifies registry.list.Values
      ensures registry.View() == UpdatedAccounts(Configuration(), old(registry.View()), m0, now)
      ensures m == UpdateTouches(old(registry.View()), m0) && r == UpdatedReply(old(registry.View()), m0, r0)
    {
      hide KeyOf, ParseInt, Dec, UpdatedEntry;
      m, r := m0.Touched("T"), r0;
      var a := registry.GetByAddress(Get(m.headers, "T"));
      if a == null {
        return;
      }
      WriteEntry(a, ToKey(m0), m0, m.Expires(), now);
      m := m.Touched("Expires");
      r := r.(headers := r.headers - {"Authorization"}).WithHeader("Expires", Dec(m.Expires()));
      r := r.AddParameter("V", "received", m.address.ip);
    }

    /** An unregistered caller is asked for credentials. */
    method Question(m0: SipMessage, r0: SipMessage, svc: Endpoint, nonce: string, now: Time)
      returns (verdict: Verdict, m: SipMessage, r: SipMessage)
      requires registry.Valid()
      modifies registry.list.Values
      ensures var c := Questioned(env, Configuration(), old(registry.View()), m0, r0, svc, nonce, now);
              registry.View() == c.accounts && m == c.m
              && (verdict.Admit? <==> c.Admitted?) && (verdict.Refuse? <==> c.Refused?)
                 && (!verdict.Throw? ==> r == c.r)
    {
      hide Questioned, Presented, UpdatedAccounts, Permitted, Challenged, UpdateTouches, UpdatedReply;
      QuestionedCases(env, Configuration(), registry.View(), m0, r0, svc, nonce, now);
      verdict, m, r := Admit, m0, r0;
      var presented := ReadCredentials(m.headers);
      if presented.Threw? {
        verdict := Throw;
        return;
      }
      var permitted := MayUpdate(m, presented.value);
      if permitted {
        m, r := UpdateLocation(m, r, now);
      } else {
        r := AddWWWAuthenticate(m, r, svc, nonce);
        r := r.(body := "");
        verdict := Refuse;
      }
    }

    /** What happens to the caller: looked up, purged, and, when not registered, asked for credentials. */
    method AdmitCaller(m0: SipMessage, r0: SipMessage, svc: Endpoint, nonce: string, now: Time)
      returns (verdict: Verdict, m: SipMessage, r: SipMessage)
      requires registry.Valid()
      modifies registry.list.Values
      ensures var c := CallerStep(env, Configuration(), old(registry.View()), m0, r0, svc, nonce, now);
              registry.View() == c.accounts && m == c.m
              && (verdict.Admit? <==> c.Admitted?) && (verdict.Refuse? <==> c.Refused?)
                 && (!verdict.Throw? ==> r == c.r)
    {
      hide KeyOf, Questioned, Located, Clean, WithLocations;
      verdict, m, r := Admit, m0, r0;
      var from := registry.GetByAddress(Get(m.headers, "F"));
      if from != null {
        m := m.(keyFrom := from.id + "@" + from.domain);
        registry.Locate(from, FromKey(m0), now);
        if !m.command.Register? {
          var expired := registry.Expired(from, FromKey(m0), now);
          LocatedThenPurged(old(registry.View()), FromKey(m0), now);
          if expired {
            verdict, m, r := Question(m, r, svc, nonce, now);
          }
        }
      }
    }

    method MayUpdate(m: SipMessage, p: AuthParams) returns (b: bool)
      ensures b == Permitted(env, Configuration(), registry.View(), m, p)
    {
      hide KeyOf, IsAuthorized;
      b := IsByUser(p.username, registry.domain, m);
      if b {
        b := Authenticate(CommandName(m.command), p);
      }
    }

    /** The callee: purged, noted in the message, and given a first location to point at. */
    method LocateCallee(m0: SipMessage, now: Time) returns (m: SipMessage, to: SipAddress?, registered: bool)
      requires registry.Valid()
      modifies registry.list.Values
      ensures registry.View() == CalleeAccounts(old(registry.View()), m0, now)
              && m == CalleeNoted(old(registry.View()), m0)
      ensures to == if ToKey(m0) in registry.list then registry.list[ToKey(m0)] else null
      ensures to != null ==> (registered <==> FirstIsLive(to.Value(), now))
      ensures to != null ==> to.locations != [] && Locations.Clean(to.locations, 0) == to.locations
    {
      hide KeyOf, Located, Clean, WithLocations;
      m, registered := m0.Touched("T"), false;
      to := registry.GetByAddress(Get(m.headers, "T"));
      if to != null {
        var expired := registry.Expired(to, ToKey(m0), now);
        registered := !expired;
        m := m.(key := to.id + "@" + to.domain);
        registry.Locate(to, ToKey(m0), now);
        PurgedThenLocated(old(registry.View()), ToKey(m0), now);
        PurgeAtZeroIsIdle(old(to.locations), now);
      }
    }

    /** The copy sent on to the entry's first location.  Printing the tag purges the list at time zero, which
        drops nothing that was located at a real time. */
    method Route(to: SipAddress, ghost key: string, m: SipMessage) returns (f: Option<SipMessage>)
      requires registry.Valid() && key in registry.list && registry.list[key] == to
      requires to.locations != [] && Locations.Clean(to.locations, 0) == to.locations
      modifies to`locations
      ensures registry.View() == old(registry.View()) && f == Routed(env, registry.View()[key], m)
    {
      hide Locations.Clean;
      var l := to.locations[0];
      var ip := env.resolve(l.host);
      if ip.None? {
        return None;
      }
      var copy := m.(address := Endpoint(ip.value, l.port % 0x1_0000), proto := l.proto);
      var t := to.GetAddressTag();
      f := Some(copy.WithHeader("T", t));
    }

    /** ACK, CANCEL, INVITE and OPTIONS. */
    method Call(to: SipAddress, ghost key: string, m: SipMessage, received: string) returns (replies: seq<SipMessage>)
      requires registry.Valid() && key in registry.list && registry.list[key] == to
      requires to.locations != [] && Locations.Clean(to.locations, 0) == to.locations
      modifies to`locations
      ensures registry.View() == old(registry.View()) && replies == Called(env, registry.View()[key], m, received)
    {
      hide Locations.Clean, Routed, Transported;
      var f := Route(to, key, m.(commandParam := to.Value().Uri()));
      replies := if f.None? then [] else [Validated(f.value).AddParameter("V", "received", received)];
    }

    /** The command switch for requests that need the callee. */
    method DispatchToCallee(m: SipMessage, r: SipMessage, branch: string, svc: Endpoint, now: Time,
                            to: SipAddress?, registered: bool) returns (replies: seq<SipMessage>)
      requires registry.Valid() && to == (if ToKey(m) in registry.list then registry.list[ToKey(m)] else null)
      requires to != null ==> to.locations != [] && Locations.Clean(to.locations, 0) == to.locations
      requires to != null ==> (registered <==> FirstIsLive(to.Value(), now))
      requires m.command.Ack? || m.command.Cancel? || m.command.Invite? || m.command.Options? || m.command.Bye?
               || m.command.Message?
      modifies registry.list.Values
      ensures registry.View() == old(registry.View())
      ensures ToKey(m) in registry.list ==> registry.View()[ToKey(m)].locations != []
      ensures replies == CalleeReplies(env, Configuration(), old(registry.View()), m, r, branch, svc, now)
    {
      hide KeyOf, Locations.Clean, Called, Routed, Capabilities, Relabelled, Validated, NotFound, FirstIsLive;
      replies := [];
      if to == null {
        return;
      }
      match m.command
      case Ack | Cancel =>
        if registered {
          replies := Call(to, ToKey(m), m, m.address.ip);
        } else {
          replies := [NotFound(r)];
        }
      case Invite =>
        if registered {
          replies := Call(to, ToKey(m), m, if m.address.port == 0 then registry.ip else m.address.ip);
        } else {
          replies := [NotFound(r)];
        }
      case Options =>
        var from := registry.GetByAddress(Get(m.headers, "F"));
        if from != null {
          if from.id == to.id {
            replies := [Capabilities(r, m.address.ip)];
          } else {
            replies := Call(to, ToKey(m), m, m.address.ip);
          }
        }
      case Bye =>
        if registered {
          var f := Route(to, ToKey(m), m);
          replies := if f.None? then [] else [Validated(f.value)];
        }
      case Message =>
        if !registered {
          replies := [NotFound(r)];
        } else {
          var len := Get(r.headers, "L");
          replies := [r.(code := 200).WithHeader("L", "0")];
          var f := Route(to, ToKey(m), m);
          replies := replies + if f.None? then [] else [Relabelled(f.value, svc, branch, len)];
        }
    }

    /** REGISTER: good credentials update To's entry, any others are challenged. */
    method HandleRegister(m0: SipMessage, r0: SipMessage, svc: Endpoint, nonce: string, now: Time)
      returns (m: SipMessage, r: SipMessage, threw: bool)
      requires registry.Valid()
      modifies registry.list.Values
      ensures var c := Questioned(env, Configuration(), old(registry.View()), m0, r0, svc, nonce, now);
              registry.View() == c.accounts && m == c.m && (threw <==> c.CallerThrew?)
              && (!threw ==> r.(body := "") == c.r.(body := ""))
    {
      hide Questioned, Presented, UpdatedAccounts, Permitted, Challenged, UpdateTouches, UpdatedReply;
      QuestionedCases(env, Configuration(), registry.View(), m0, r0, svc, nonce, now);
      m, r, threw := m0, r0, false;
      var presented := ReadCredentials(m.headers);
      if presented.Threw? {
        threw := true;
        return;
      }
      var permitted := MayUpdate(m, presented.value);
      if permitted {
        m, r := UpdateLocation(m, r, now);
      } else {
        r := AddWWWAuthenticate(m, r, svc, nonce);
      }
    }

    /** The command switch. */
    method Dispatch(m0: SipMessage, r0: SipMessage, branch: string, svc: Endpoint, nonce: string, now: Time,
                    to: SipAddress?, registered: bool)
      returns (m: SipMessage, replies: seq<SipMessage>, threw: bool)
      requires registry.Valid() && to == (if ToKey(m0) in registry.list then registry.list[ToKey(m0)] else null)
      requires to != null ==> to.locations != [] && Locations.Clean(to.locations, 0) == to.locations
      requires to != null ==> (registered <==> FirstIsLive(to.Value(), now))
      modifies registry.list.Values
      ensures ToKey(m0) in old(registry.View()) ==> old(registry.View())[ToKey(m0)].locations != []
      ensures Step(registry.View(), tag, m, replies, threw)
              == CalleeStep(env, Configuration(), old(registry.View()), m0, r0, branch, tag, svc, nonce, now)
    {
      hide KeyOf, Locations.Clean, CalleeReplies, Questioned, Presented, UpdatedAccounts, Permitted, Challenged,
        UpdateTouches, UpdatedReply, FirstIsLive;
      m, replies, threw := m0, [], false;
      match m.command
      case Register =>
        RegisterCases(env, Configuration(), registry.View(), m, r0, branch, tag, svc, nonce, now);
        var r;
        m, r, threw := HandleRegister(m, r0, svc, nonce, now);
        if threw {
          return;
        }
        replies := [r.(body := "")];
      case Ack | Cancel | Invite | Options | Bye | Message =>
        replies := DispatchToCallee(m, r0, branch, svc, now, to, registered);
      case Subscribe =>
        replies := [r0];
      case _ =>
        replies := [r0.(code := 501, body := "")];
    }

    /** processResponse. */
    method ProcessResponse(m0: SipMessage, now: Time) returns (m: SipMessage, replies: seq<SipMessage>)
      requires registry.Valid()
      modifies registry.list.Values
      ensures Step(registry.View(), tag, m, replies, false) == ResponseStep(env, old(registry.View()), m0, tag, now)
    {
      hide KeyOf, Located, Cyclic;
      m, replies := m0.Touched("F"), [];
      var from := registry.GetByAddress(Get(m.headers, "F"));
      if from == null {
        return;
      }
      var key := from.id + "@" + from.domain;
      registry.Locate(from, FromKey(m0), now);
      var l := from.locations[0];
      if Cyclic(l, m.address) {
        return;
      }
      if m.code == 200 {
        var cseq := Get(m.headers, "CSeq");
        m := m.Touched("CSeq");
        if EndsWith(Upper(cseq), "REGISTER") {
          m := m.Touched("V").Touched("T");
        }
      }
      var relay := m.(proto := l.proto, key := key);
      var ip := env.resolve(l.host);
      if ip.None? {
        return;
      }
      relay := relay.(address := Endpoint(ip.value, 0)).WithPort(l.port);
      if relay.address.port != 5060 {
        replies := [relay.AddParameter("V", "received", l.host)];
      }
    }

    /** One request, hops left and counted down. */
    method ProcessRequest(m0: SipMessage, svc: Endpoint, nonce: string, now: Time)
      returns (m: SipMessage, replies: seq<SipMessage>, threw: bool)
      requires registry.Valid()
      modifies this`tag, registry.list.Values
      ensures Step(registry.View(), tag, m, replies, threw)
              == RequestStep(env, Configuration(), old(registry.View()), m0, old(tag), svc, nonce, now)
    {
      hide Prepare, CallerStep, CalleeStep, CalleeNoted, LocatedAt, KeyOf, Clean, FirstIsLive;
      replies, threw := [], false;
      var r, branch;
      m, r, branch := PrepareAnswer(m0);
      var verdict;
      verdict, m, r := AdmitCaller(m, r, svc, nonce, now);
      match verdict
      case Throw => threw := true;
      case Refuse => replies := [r];
      case Admit =>
        ghost var key := ToKey(m);
        var to, registered;
        m, to, registered := LocateCallee(m, now);
        m, replies, threw := Dispatch(m, r, branch, svc, nonce, now, to, registered);
    }

    /** mkResponse: what the message produces is appended to `result`. */
    method MkResponse(m0: SipMessage, result: seq<SipMessage>, svc: Endpoint, nonce: string, now: Time)
      returns (m: SipMessage, replies: seq<SipMessage>, threw: bool)
      requires registry.Valid()
      modifies this`tag, registry.list.Values
      ensures var s := MessageStep(env, Configuration(), old(registry.View()), m0, old(tag), svc, nonce, now);
              Step(registry.View(), tag, m, s.replies, threw) == s && replies == result + s.replies
    {
      hide RequestStep, ResponseStep, ParseInt, Dec;
      m, replies, threw := m0.Touched("Max-Forwards"), result, false;
      var maxForwards: int := m0.MaxForwards();
      if maxForwards == 0 {
        return;
      }
      m := m0.WithMaxForwards(ToInt32(maxForwards - 1));
      var more;
      if m.command.Response? {
        m, more := ProcessResponse(m, now);
      } else {
        m, more, threw := ProcessRequest(m, svc, nonce, now);
      }
      replies := result + more;
    }
  }

  lemma QuestionedCases(env: Env, config: Config, accounts: Accounts, m: SipMessage, r: SipMessage,
                        svc: Endpoint, nonce: string, now: Time)
    ensures var c, p := Questioned(env, config, accounts, m, r, svc, nonce, now), Presented(config.domain, m.headers);
            if p.Threw? then c == CallerThrew(accounts, m)
            else if Permitted(env, config, accounts, m, p.value)
            then c == Admitted(UpdatedAccounts(config, accounts, m, now), UpdateTouches(accounts, m),
                               UpdatedReply(accounts, m, r))
            else c == Refused(accounts, m, Challenged(env, config, m, r, svc, nonce).(body := ""))
  {
    hide Presented, UpdatedAccounts, Permitted, Challenged, UpdateTouches, UpdatedReply;
  }

  /** REGISTER does to To's entry what questioning a caller does. */
  lemma RegisterCases(env: Env, config: Config, accounts: Accounts, m: SipMessage, r: SipMessage, branch: string,
                      tag: nat, svc: Endpoint, nonce: string, now: Time)
    requires m.command.Register? && (ToKey(m) in accounts ==> accounts[ToKey(m)].locations != [])
    ensures var c := Questioned(env, config, accounts, m, r, svc, nonce, now);
            CalleeStep(env, config, accounts, m, r, branch, tag, svc, nonce, now)
            == if c.CallerThrew? then Step(c.accounts, tag, c.m, [], true)
               else Step(c.accounts, tag, c.m, [c.r.(body := "")], false)
  {
    hide Presented, UpdatedAccounts, Permitted, Challenged, UpdateTouches, UpdatedReply;
  }

  lemma LocatedThenPurged(accounts: Accounts, key: string, now: Time)
    requires key in accounts
    ensures var ls := accounts[key].locations;
            WithLocations(WithLocations(accounts, key, Located(ls, now)), key, Clean(Located(ls, now), now))
              == PurgedAt(accounts, key, now)
            && (Clean(Located(ls, now), now) == [] <==> !LiveAt(accounts, key, now))
  {
    hide Located, Clean;
    LookupKeepsLive(accounts[key].locations, now, now);
  }

  lemma PurgedThenLocated(accounts: Accounts, key: string, now: Time)
    requires key in accounts
    ensures var ls := accounts[key].locations;
            WithLocations(WithLocations(accounts, key, Clean(ls, now)), key, Located(Clean(ls, now), now))
              == LocatedAt(accounts, key, now)
            && Located(Clean(ls, now), now) == Located(ls, now)
            && (!Located(ls, now)[0].IsExpired(now) <==> Clean(ls, now) != [])
  {
    hide Clean;
    var ls := accounts[key].locations;
    CleanClean(ls, now, now);
    if Clean(ls, now) != [] {
      assert Clean(ls, now)[0] in Clean(ls, now);
    }
  }

  /** The writes to the first slot, one after the other, are those of the specification. */
  lemma UpdateWrites(ls: seq<SipLocation>, m: SipMessage, expire: Int32, now: Time)
    ensures var located := Located(ls, now);
            var edited := located[0 := located[0].(expire := expire)];
            edited == [located[0].(expire := expire)] + located[1..] &&
            edited[0 := Bound(edited[0], m.proto, m.address.ip, m.address.port, expire, now)]
              == Rebound(ls, m.proto, m.address.ip, m.address.port, expire, now)
  {
    hide Located;
  }
}
