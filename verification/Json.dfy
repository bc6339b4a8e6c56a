/** Addresses and registries as JSON values (the JSON pairs of SipLocation.cpp, SipAddress.cpp and
    SipRegistry.cpp).  JSON itself is an abstract value: a missing member reads as a default. */
module Json {
  import opened Text
  import opened Locations
  import opened AddressText
  import opened AccountMap

  datatype Json = Null | Str(text: string) | Num(number: int) | Arr(items: seq<Json>)
                | Obj(members: map<string, Json>)
  {
    function Member(name: string): Json {
      if Obj? && name in members then members[name] else Null
    }

    function AsString(): string {
      if Str? then text else ""
    }

    function AsInt(): int {
      if Num? then number else 0
    }
  }

  // ---------------------------------------------------------------- numbers and names

  /** The conversion to UInt64 before a time is stored. */
  function ToUInt64(x: Int64): int {
    x % U64_LIMIT
  }

  function ToInt64(x: int): Int64 {
    (x + 0x8000_0000_0000_0000) % U64_LIMIT - 0x8000_0000_0000_0000
  }

  lemma TimeRoundTrip(x: Int64)
    ensures ToInt64(ToUInt64(x)) == x && (ToUInt64(x) == 0 <==> x == 0)
  {
  }

  function PrefixName(p: Prefix): string {
    match p
    case NoPrefix => ""
    case SipPrefix => "sip"
    case SipsPrefix => "sips"
    case WsPrefix => "ws"
    case WssPrefix => "wss"
  }

  function ParsePrefix(s: string): Prefix {
    if s == "sip" then SipPrefix
    else if s == "sips" then SipsPrefix
    else if s == "ws" then WsPrefix
    else if s == "wss" then WssPrefix
    else NoPrefix
  }

  /** The bounds test of the source lets only the first name through. */
  function OriginName(o: Origin): string {
    if o.FromRegistry? then "registry" else ""
  }

  function ParseOrigin(s: string): Origin {
    if s == "registry" then FromRegistry else FromNetwork
  }

  lemma EnumsRoundTrip(l: SipLocation)
    ensures ParseProto(ProtoName(l.proto)) == l.proto && ParsePrefix(PrefixName(l.prefix)) == l.prefix
  {
    assert "udp"[0] == 'u' && "tcp"[0] == 't' && |"ws"| == 2 && |"sips"| == 4 && |"sip"| == 3 && "wss"[0] == 'w'
      && "sip"[0] == 's';
  }

  lemma OriginRoundTrip(o: Origin)
    ensures ParseOrigin(OriginName(o)) == o
  {
  }

  // ---------------------------------------------------------------- objects

  type Member = (string, Json)

  /** Members assigned in order; an empty text or a zero is not assigned at all. */
  function Members(ms: seq<Member>): map<string, Json> {
    if ms == [] then map[]
    else
      var rest, m := Members(ms[..|ms| - 1]), ms[|ms| - 1];
      if m.1.Null? then rest else rest[m.0 := m.1]
  }

  function TextMember(value: string): Json {
    if value == "" then Null else Str(value)
  }

  function NumberMember(value: int): Json {
    if value == 0 then Null else Num(value)
  }

  function LocationMembers(l: SipLocation): seq<Member> {
    [("proto", TextMember(ProtoName(l.proto))), ("prefix", TextMember(PrefixName(l.prefix))),
      ("host", TextMember(l.host)),
     ("port", NumberMember(l.port)), ("line", TextMember(l.line)), ("tag", TextMember(l.tag)),
       ("rinstance", TextMember(l.rinstance)),
     ("expire", NumberMember(l.expire)), ("registered", NumberMember(ToUInt64(l.registered)))]
  }

  function LocationJson(l: SipLocation): Json {
    Obj(Members(LocationMembers(l)))
  }

  function LocationOf(j: Json): SipLocation {
    SipLocation(ParseProto(j.Member("proto").AsString()), ParsePrefix(j.Member("prefix").AsString()),
                j.Member("host").AsString(), ToInt32(j.Member("port").AsInt()), j.Member("tag").AsString(),
                j.Member("line").AsString(), j.Member("rinstance").AsString(), ToInt32(j.Member("expire").AsInt()),
                ToInt64(j.Member("registered").AsInt()))
  }

  function LocationJsons(ls: seq<SipLocation>): seq<Json> {
    seq(|ls|, i requires 0 <= i < |ls| => LocationJson(ls[i]))
  }

  function AddressMembers(a: Address, deep: bool): seq<Member> {
    [("origin", Str(OriginName(a.origin))), ("password", if deep then TextMember(a.password) else Null),
     ("cn", TextMember(a.commonName)), ("description", TextMember(a.description)), ("id", TextMember(a.id)),
       ("domain", TextMember(a.domain)),
     ("updated", NumberMember(ToUInt64(a.updated))), ("image", TextMember(a.image)),
       ("locations", Arr(LocationJsons(a.locations)))]
  }

  function AddressJson(a: Address, deep: bool): Json {
    Obj(Members(AddressMembers(a, deep)))
  }

  function LocationsOf(items: seq<Json>): seq<SipLocation> {
    seq(|items|, i requires 0 <= i < |items| => LocationOf(items[i]))
  }

  function AddressOf(j: Json): Address {
    Address(ParseOrigin(j.Member("origin").AsString()),
            if j.Member("locations").Arr? then LocationsOf(j.Member("locations").items) else [],
            j.Member("password").AsString(), j.Member("cn").AsString(), j.Member("description").AsString(),
            j.Member("id").AsString(), j.Member("domain").AsString(), ToInt64(j.Member("updated").AsInt()),
            j.Member("image").AsString())
  }

  // ---------------------------------------------------------------- round trips

  predicate NamesDiffer(ms: seq<Member>) {
    forall i, j :: 0 <= i < j < |ms| ==> ms[i].0 != ms[j].0
  }

  lemma {:induction false} MemberReads(ms: seq<Member>, i: nat)
    requires i < |ms| && NamesDiffer(ms)
    ensures Obj(Members(ms)).Member(ms[i].0) == ms[i].1
    decreases |ms|
  {
    var n := |ms| - 1;
    if i < n {
      MemberReads(ms[..n], i);
    } else {
      NotAMember(ms[..n], ms[n].0);
    }
  }

  lemma {:induction false} NotAMember(ms: seq<Member>, name: string)
    requires forall i :: 0 <= i < |ms| ==> ms[i].0 != name
    ensures name !in Members(ms)
  {
    if ms != [] {
      NotAMember(ms[..|ms| - 1], name);
    }
  }

  lemma Texts(value: string, number: int)
    ensures TextMember(value).AsString() == value && NumberMember(number).AsInt() == number
  {
  }

  lemma LocationNamesDiffer(l: SipLocation)
    ensures NamesDiffer(LocationMembers(l))
  {
    hide ProtoName, PrefixName, ToUInt64, TextMember, NumberMember;
    assert "host"[0] == 'h' && "port"[0] == 'p' && "line"[0] == 'l' && "prefix"[0] == 'p' && "expire"[0] == 'e';
  }

  lemma AddressNamesDiffer(a: Address, deep: bool)
    ensures NamesDiffer(AddressMembers(a, deep))
  {
    hide OriginName, ToUInt64, LocationJsons, TextMember, NumberMember;
    assert "cn"[0] == 'c' && "id"[0] == 'i' && "origin"[0] == 'o' && "domain"[0] == 'd';
  }

  /** Every location survives being stored, with its zero and empty members left out. */
  lemma LocationRoundTrip(l: SipLocation)
    ensures LocationOf(LocationJson(l)) == l
  {
    hide Members, ProtoName, PrefixName, ParseProto, ParsePrefix, ToUInt64, ToInt64, ToInt32, NamesDiffer, TextMember,
      NumberMember;
    var ms := LocationMembers(l);
    LocationNamesDiffer(l);
    forall i | 0 <= i < 9 ensures Obj(Members(ms)).Member(ms[i].0) == ms[i].1 {
      MemberReads(ms, i);
    }
    assert ms[0].0 == "proto" && ms[1].0 == "prefix" && ms[2].0 == "host" && ms[3].0 == "port" && ms[4].0 == "line";
    assert ms[5].0 == "tag" && ms[6].0 == "rinstance" && ms[7].0 == "expire" && ms[8].0 == "registered";
    Texts(ProtoName(l.proto), l.port);
    Texts(PrefixName(l.prefix), l.expire);
    Texts(l.host, ToUInt64(l.registered));
    Texts(l.line, 0);
    Texts(l.tag, 0);
    Texts(l.rinstance, 0);
    EnumsRoundTrip(l);
    IntsRoundTrip(l.port);
    IntsRoundTrip(l.expire);
    TimeRoundTrip(l.registered);
  }

  lemma IntsRoundTrip(x: Int32)
    ensures ToInt32(x) == x
  {
  }

  /** The address as it is shown: whole, or without its password. */
  function Shown(a: Address, deep: bool): Address {
    if deep then a else a.(password := "")
  }

  /** Every address survives being stored with its password, and comes back with a blank one from a listing. */
  lemma AddressRoundTrip(a: Address, deep: bool)
    ensures AddressOf(AddressJson(a, deep)) == Shown(a, deep)
  {
    hide Members, OriginName, ParseOrigin, ToUInt64, ToInt64, LocationOf, LocationJson, NamesDiffer, TextMember,
      NumberMember;
    var ms := AddressMembers(a, deep);
    AddressNamesDiffer(a, deep);
    forall i | 0 <= i < 9 ensures Obj(Members(ms)).Member(ms[i].0) == ms[i].1 {
      MemberReads(ms, i);
    }
    assert ms[0].0 == "origin" && ms[1].0 == "password" && ms[2].0 == "cn" && ms[3].0 == "description"
      && ms[4].0 == "id";
    assert ms[5].0 == "domain" && ms[6].0 == "updated" && ms[7].0 == "image" && ms[8].0 == "locations";
    Texts(a.password, ToUInt64(a.updated));
    Texts(a.commonName, 0);
    Texts(a.description, 0);
    Texts(a.id, 0);
    Texts(a.domain, 0);
    Texts(a.image, 0);
    OriginRoundTrip(a.origin);
    TimeRoundTrip(a.updated);
    LocationsRoundTrip(a.locations);
  }

  /** A listing says nothing about the password. */
  lemma PasswordIsHidden(a: Address, password: string)
    ensures AddressJson(a, false) == AddressJson(a.(password := password), false)
  {
    hide Members, OriginName, ToUInt64, LocationJson, TextMember, NumberMember;
    assert AddressMembers(a, false) == AddressMembers(a.(password := password), false);
  }

  lemma LocationsRoundTrip(ls: seq<SipLocation>)
    ensures LocationsOf(LocationJsons(ls)) == ls
  {
    hide LocationOf, LocationJson;
    forall i | 0 <= i < |ls| ensures LocationOf(LocationJson(ls[i])) == ls[i] {
      LocationRoundTrip(ls[i]);
    }
  }

  // ---------------------------------------------------------------- the registry

  datatype Stored = Stored(domain: string, ip: string, accounts: Accounts)

  /** The registry as stored, its entries in some order of their keys. */
  function RegistryJson(s: Stored, order: seq<string>, deep: bool): Json
    requires forall k :: k in order ==> k in s.accounts
  {
    Obj(map["domain" := Str(s.domain), "ip" := Str(s.ip), "data" := Arr(EntryJsons(s.accounts, order, deep))])
  }

  function EntryJsons(accounts: Accounts, order: seq<string>, deep: bool): seq<Json>
    requires forall k :: k in order ==> k in accounts
  {
    seq(|order|, i requires 0 <= i < |order| => AddressJson(accounts[order[i]], deep))
  }

  /** The put loop of load. */
  function PutAll(accounts: Accounts, items: seq<Json>): Accounts {
    if items == [] then accounts
    else
      var a := AddressOf(items[|items| - 1]);
      PutAll(accounts, items[..|items| - 1])[a.Key() := a]
  }

  function Loaded(accounts: Accounts, j: Json): Stored {
    var domain, ip := j.Member("domain").AsString(), j.Member("ip").AsString();
    Stored(domain, if ip == "" then domain else ip,
           if j.Member("data").Arr? then PutAll(accounts, j.Member("data").items) else accounts)
  }

  /** A complete, duplicate-free listing of the keys. */
  ghost predicate Lists(order: seq<string>, keys: set<string>) {
    (forall k :: k in order <==> k in keys) && (forall i, j :: 0 <= i < j < |order| ==> order[i] != order[j])
  }

  /** The map rebuilt from stored entries: each under the key it computes for itself. */
  lemma {:induction false} PutAllRebuilds(accounts: Accounts, order: seq<string>, deep: bool)
    requires forall k :: k in order ==> k in accounts
    ensures var after := PutAll(map[], EntryJsons(accounts, order, deep));
            Keyed(after) && (Keyed(accounts) ==> after == map k | k in order :: Shown(accounts[k], deep))
    decreases |order|
  {
    hide AddressJson, AddressOf;
    if order != [] {
      var n := |order| - 1;
      PutAllRebuilds(accounts, order[..n], deep);
      AddressRoundTrip(accounts[order[n]], deep);
      assert EntryJsons(accounts, order, deep)[..n] == EntryJsons(accounts, order[..n], deep);
      assert order == order[..n] + [order[n]];
    }
  }

  lemma RegistryMembers(s: Stored, order: seq<string>, deep: bool)
    requires forall k :: k in order ==> k in s.accounts
    ensures var j := RegistryJson(s, order, deep);
            j.Member("domain") == Str(s.domain) && j.Member("ip") == Str(s.ip)
            && j.Member("data") == Arr(EntryJsons(s.accounts, order, deep))
  {
    hide EntryJsons;
    assert |"domain"| == 6 && |"data"| == 4 && |"ip"| == 2;
  }

  function ShownStored(s: Stored, deep: bool): Stored {
    s.(accounts := map k | k in s.accounts :: Shown(s.accounts[k], deep))
  }

  /** Loading what was stored, into an empty registry, rebuilds the same registry, and loading a listing the registry
      with blank passwords, exactly when every key is its entry's own key and the default address is not empty
      beside a domain. */
  lemma StoreRoundTrip(s: Stored, order: seq<string>, deep: bool)
    requires Lists(order, s.accounts.Keys)
    ensures Loaded(map[], RegistryJson(s, order, deep)) == ShownStored(s, deep) <==>
            Keyed(s.accounts) && (s.ip == "" ==> s.domain == "")
    ensures ShownStored(s, true) == s
  {
    hide RegistryJson, EntryJsons, PutAll, Keyed;
    RegistryMembers(s, order, deep);
    PutAllRebuilds(s.accounts, order, deep);
    assert (map k | k in order :: Shown(s.accounts[k], deep)) == ShownStored(s, deep).accounts;
    ShownKeys(s, deep);
    assert ShownStored(s, true).accounts == s.accounts;
  }

  lemma ShownKeys(s: Stored, deep: bool)
    ensures Keyed(ShownStored(s, deep).accounts) <==> Keyed(s.accounts)
  {
    var shown := ShownStored(s, deep).accounts;
    assert forall k :: k in shown ==> shown[k].Key() == s.accounts[k].Key();
  }

  /** Two registries that differ in nothing but passwords are listed the same. */
  lemma ListingHidesPasswords(s: Stored, t: Stored, order: seq<string>)
    requires Lists(order, s.accounts.Keys) && ShownStored(s, false) == ShownStored(t, false)
    ensures Lists(order, t.accounts.Keys) && RegistryJson(s, order, false) == RegistryJson(t, order, false)
  {
    hide AddressJson;
    assert s.accounts.Keys == ShownStored(s, false).accounts.Keys == t.accounts.Keys;
    forall i | 0 <= i < |order|
      ensures AddressJson(s.accounts[order[i]], false) == AddressJson(t.accounts[order[i]], false)
    {
      var a, b := s.accounts[order[i]], t.accounts[order[i]];
      assert order[i] in order;
      assert a.(password := "") == ShownStored(s, false).accounts[order[i]];
      assert b.(password := "") == ShownStored(t, false).accounts[order[i]];
      PasswordIsHidden(a, "");
      PasswordIsHidden(b, "");
    }
    assert EntryJsons(s.accounts, order, false) == EntryJsons(t.accounts, order, false);
  }
}
