/** The registry object (SipRegistry.cpp).  The map owns its addresses: different keys, different objects. */
module Registry {
  import opened Text
  import opened Locations
  import opened AddressText
  import opened AccountMap
  import opened Json
  import opened Addresses

  class SipRegistry {
    var list: map<string, SipAddress>
    var version: nat
    var domain: string
    var ip: string
    const parseTime: string -> Int64

    ghost predicate Valid()
      reads this
    {
      forall k, j :: k in list && j in list && k != j ==> list[k] != list[j]
    }

    function View(): Accounts
      reads this, list.Values
    {
      map k | k in list :: list[k].Value()
    }

    constructor (parseTime: string -> Int64)
      ensures Valid() && View() == map[] && domain == "" && ip == "" && version == 0 && this.parseTime == parseTime
    {
      list, version, domain, ip := map[], 0, "", "";
      this.parseTime := parseTime;
    }

    /** Returns the old version. */
    method SetVersion(value: nat) returns (previous: nat)
      modifies this`version
      ensures previous == old(version) && version == value
    {
      previous := version;
      version := value;
    }

    method Clear()
      modifies this`list, this`version
      ensures Valid() && View() == map[] && version == 0
    {
      version := 0;
      list := map[];
    }

    /** The map keeps a copy of the value, under the key the value computes for itself. */
    method Put(value: SipAddress)
      requires Valid()
      modifies this`list
      ensures Valid() && View() == old(View())[value.Value().Key() := value.Value()]
      ensures fresh(list.Values - old(list.Values))
    {
      var copy := new SipAddress.Copy(value);
      list := list[value.id + "@" + value.domain := copy];
    }

    method Get(key: string) returns (a: SipAddress?)
      ensures a == if key in list then list[key] else null
    {
      a := if key in list then list[key] else null;
    }

    method GetById(id: string, domain: string) returns (a: SipAddress?)
      ensures a == if id + "@" + domain in list then list[id + "@" + domain] else null
    {
      a := Get(id + "@" + domain);
    }

    /** Resolves a header text through a temporary address parsed from it. */
    method GetByAddress(address: string) returns (a: SipAddress?)
      ensures a == if KeyOf(address) in list then list[KeyOf(address)] else null
    {
      var parsed := new SipAddress.Parse(NoProto, address, 0, parseTime);
      a := GetById(parsed.id, parsed.domain);
    }

    /** getLocation through a reference into the map. */
    method Locate(a: SipAddress, ghost key: string, now: int)
      requires Valid() && key in list && list[key] == a
      modifies a`locations
      ensures a.locations == Located(old(a.locations), now)
      ensures View() == WithLocations(old(View()), key, Located(old(a.locations), now))
    {
      hide Located;
      a.GetLocation(now);
    }

    /** isExpired through a reference into the map. */
    method Expired(a: SipAddress, ghost key: string, now: int) returns (expired: bool)
      requires Valid() && key in list && list[key] == a
      modifies a`locations
      ensures a.locations == Locations.Clean(old(a.locations), now) && (expired <==> a.locations == [])
      ensures View() == WithLocations(old(View()), key, Locations.Clean(old(a.locations), now))
    {
      hide Locations.Clean;
      expired := a.IsExpired(now);
    }

    /** find_if with the expiry predicate: the next expired entry at or behind `it`, or the end.  The predicate
        takes its entry by value, so its purge runs on a copy. */
    method FindExpired(order: seq<string>, it: nat, now: int) returns (next: nat)
      requires it <= |order| && forall i :: it <= i < |order| ==> order[i] in list
      ensures it <= next <= |order|
      ensures forall i :: it <= i < next ==> LiveAt(View(), order[i], now)
      ensures next < |order| ==> !LiveAt(View(), order[next], now)
    {
      hide Locations.Clean;
      next := it;
      while next < |order|
        invariant it <= next <= |order| && forall i :: it <= i < next ==> LiveAt(View(), order[i], now)
      {
        var copy := new SipAddress.Copy(list[order[next]]);
        var expired := copy.IsExpired(now);
        if expired {
          return;
        }
        next := next + 1;
      }
    }

    method Erase(key: string)
      requires Valid()
      modifies this`list
      ensures Valid() && View() == old(View()) - {key}
    {
      list := list - {key};
    }

    /** One turn of the sweep: find the next expired entry and erase it; `before` is the registry at the start. */
    method EraseNext(ghost before: Accounts, order: seq<string>, it: nat, now: int) returns (next: nat)
      requires Valid() && it <= |order| && Lists(order, before.Keys) && View() == KeptFrom(before, order, it, now)
      modifies this`list
      ensures Valid() && it <= next <= |order|
      ensures View() == if next < |order| then KeptFrom(before, order, next + 1, now) else SweptAccounts(before, now)
    {
      hide LiveAt, KeptFrom, SweptAccounts;
      KeptContains(before, order, it, now);
      next := FindExpired(order, it, now);
      if next < |order| {
        KeptStep(before, order, it, next, now);
        Erase(order[next]);
      } else {
        KeptAtEnd(before, order, it, now);
      }
    }

    /** clean: find the next expired entry, erase it, go on behind it. */
    method Sweep(now: int)
      requires Valid()
      modifies this`list
      ensures Valid() && View() == SweptAccounts(old(View()), now)
    {
      hide LiveAt, KeptFrom, SweptAccounts;
      ghost var before := View();
      var order := Enumerate(list.Keys);
      KeptAtStart(before, order, now);
      var it := 0;
      while true
        invariant 0 <= it <= |order| && Valid() && View() == KeptFrom(before, order, it, now)
        decreases |order| - it
      {
        var next := EraseNext(before, order, it, now);
        if next == |order| {
          return;
        }
        it := next + 1;
      }
    }

    /** load of a JSON value: the put loop over its data. */
    method Load(value: Json) returns (loaded: bool)
      requires Valid()
      modifies this`list, this`domain, this`ip
      ensures Valid() && Stored(domain, ip, View()) == Loaded(old(View()), value)
      ensures loaded <==> value.Member("data").Arr?
    {
      domain, ip := value.Member("domain").AsString(), value.Member("ip").AsString();
      if ip == "" {
        ip := domain;
      }
      assert View() == old(View());
      var v := value.Member("data");
      loaded := v.Arr?;
      if loaded {
        PutStored(v.items);
      }
    }

    method PutStored(items: seq<Json>)
      requires Valid()
      modifies this`list
      ensures Valid() && View() == PutAll(old(View()), items)
    {
      hide AddressOf;
      for i := 0 to |items|
        invariant Valid() && View() == PutAll(old(View()), items[..i])
      {
        var a := new SipAddress.Stored(items[i]);
        assert items[..i + 1][..i] == items[..i];
        Put(a);
      }
      assert items[..|items|] == items;
    }

    /** toJson, in some order of the keys. */
    method ToJson(deep: bool) returns (value: Json)
      ensures exists order :: Lists(order, list.Keys) && value == RegistryJson(Stored(domain, ip, View()), order, deep)
    {
      var order := Enumerate(list.Keys);
      var items: seq<Json> := [];
      for i := 0 to |order|
        invariant items == EntryJsons(View(), order[..i], deep)
      {
        items := items + [AddressJson(list[order[i]].Value(), deep)];
        assert order[..i + 1][..i] == order[..i];
      }
      assert order[..|order|] == order;
      value := Obj(map["domain" := Str(domain), "ip" := Str(ip), "data" := Arr(items)]);
    }
  }

  /** The keys in the order an iterator visits them; nothing depends on which order that is. */
  method Enumerate(keys: set<string>) returns (order: seq<string>)
    ensures Lists(order, keys)
  {
    order := [];
    var rest := keys;
    while rest != {}
      invariant rest <= keys && Lists(order, keys - rest)
      decreases |rest|
    {
      var k :| k in rest;
      order := order + [k];
      rest := rest - {k};
    }
  }

  /** What is left when the sweep has come to position `it`: everything from there on, and the live entries
      before it. */
  ghost function KeptFrom(accounts: Accounts, order: seq<string>, it: nat, now: int): Accounts
    requires it <= |order|
  {
    map k | k in accounts && (k in order[it..] || LiveAt(accounts, k, now)) :: accounts[k]
  }

  lemma KeptAtStart(accounts: Accounts, order: seq<string>, now: int)
    requires Lists(order, accounts.Keys)
    ensures KeptFrom(accounts, order, 0, now) == accounts
  {
    hide LiveAt;
  }

  lemma KeptContains(accounts: Accounts, order: seq<string>, it: nat, now: int)
    requires it <= |order| && Lists(order, accounts.Keys)
    ensures forall i :: it <= i < |order| ==> order[i] in KeptFrom(accounts, order, it, now)
    ensures forall k :: k in KeptFrom(accounts, order, it, now) ==>
      (LiveAt(KeptFrom(accounts, order, it, now), k, now) <==> LiveAt(accounts, k, now))
  {
    hide Locations.Clean;
    forall i | it <= i < |order| ensures order[i] in order[it..] {
      assert order[it..][i - it] == order[i];
    }
  }

  /** The entries passed over are live, so they stay; the one found goes. */
  lemma KeptStep(accounts: Accounts, order: seq<string>, it: nat, next: nat, now: int)
    requires it <= next < |order| && Lists(order, accounts.Keys)
    requires forall i :: it <= i < next ==> LiveAt(KeptFrom(accounts, order, it, now), order[i], now)
    requires !LiveAt(KeptFrom(accounts, order, it, now), order[next], now)
    ensures KeptFrom(accounts, order, next + 1, now) == KeptFrom(accounts, order, it, now) - {order[next]}
  {
    hide LiveAt, Lists;
    KeptContains(accounts, order, it, now);
    forall k ensures k in order[it..] <==> (k in order[next + 1..] || k == order[next] || k in order[it..next]) {
      TailMembers(order, it, next, k);
    }
    forall k | k in order[it..next] ensures LiveAt(accounts, k, now) {
      var i :| 0 <= i < next - it && order[it..next][i] == k;
      assert order[it + i] == k && order[it + i] in KeptFrom(accounts, order, it, now);
    }
    assert order[next] !in order[next + 1..] by { NoRepeat(order, accounts.Keys, next); }
  }

  lemma TailMembers(order: seq<string>, it: nat, next: nat, k: string)
    requires it <= next < |order|
    ensures k in order[it..] <==> (k in order[next + 1..] || k == order[next] || k in order[it..next])
  {
    assert order[it..] == order[it..next] + [order[next]] + order[next + 1..];
  }

  lemma NoRepeat(order: seq<string>, keys: set<string>, i: nat)
    requires i < |order| && Lists(order, keys)
    ensures order[i] !in order[i + 1..]
  {
  }

  lemma KeptAtEnd(accounts: Accounts, order: seq<string>, it: nat, now: int)
    requires it <= |order| && Lists(order, accounts.Keys)
    requires forall i :: it <= i < |order| ==> LiveAt(KeptFrom(accounts, order, it, now), order[i], now)
    ensures KeptFrom(accounts, order, it, now) == SweptAccounts(accounts, now)
  {
    hide LiveAt;
    KeptContains(accounts, order, it, now);
    forall k | k in order[it..] ensures LiveAt(accounts, k, now) {
      var i :| 0 <= i < |order| - it && order[it..][i] == k;
      assert order[it + i] == k;
    }
  }
}
