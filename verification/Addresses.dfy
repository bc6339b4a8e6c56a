/** The SipAddress object (SipAddress.cpp): parsing, and a location list that its own queries purge. */
module Addresses {
  import opened Text
  import opened Locations
  import opened AddressText
  import opened Contacts
  import opened Json

  class SipAddress {
    var origin: Origin
    var locations: seq<SipLocation>
    var password: string
    var commonName: string
    var description: string
    var id: string
    var domain: string
    var updated: Int64
    var image: string

    function Value(): Address
      reads this
    {
      Address(origin, locations, password, commonName, description, id, domain, updated, image)
    }

    /** A new account of the registry, without locations. */
    constructor Account(domain: string, id: string, password: string, commonName: string, description: string,
      image: string)
      ensures Value() == Address(FromRegistry, [], password, commonName, description, id, domain, 0, image)
    {
      origin, locations, updated := FromRegistry, [], 0;
      this.password, this.commonName, this.description := password, commonName, description;
      this.id, this.domain, this.image := id, domain, image;
    }

    /** The copy constructor, which pushes the locations one by one. */
    constructor Copy(value: SipAddress)
      ensures Value() == old(value.Value())
    {
      origin, locations, password, commonName := value.origin, [], value.password, value.commonName;
      description, id, domain := value.description, value.id, value.domain;
      updated, image := value.updated, value.image;
      new;
      for i := 0 to |value.locations|
        invariant Value() == old(value.Value()).(locations := value.locations[..i])
        invariant value.Value() == old(value.Value())
      {
        locations := locations + [value.locations[i]];
      }
    }

    /** The JSON constructor. */
    constructor Stored(value: Json)
      ensures Value() == AddressOf(value)
    {
      hide LocationOf, ParseOrigin, ToInt64;
      origin := ParseOrigin(value.Member("origin").AsString());
      password, commonName := value.Member("password").AsString(), value.Member("cn").AsString();
      description := value.Member("description").AsString();
      id, domain := value.Member("id").AsString(), value.Member("domain").AsString();
      updated, image := ToInt64(value.Member("updated").AsInt()), value.Member("image").AsString();
      locations := [];
      new;
      var locs := value.Member("locations");
      if locs.Arr? {
        for i := 0 to |locs.items|
          invariant Value() == AddressOf(value).(locations := LocationsOf(locs.items[..i]))
        {
          assert LocationsOf(locs.items[..i + 1]) == LocationsOf(locs.items[..i]) + [LocationOf(locs.items[i])];
          locations := locations + [LocationOf(locs.items[i])];
        }
        assert locs.items[..|locs.items|] == locs.items;
      }
    }

    /** The parsing constructor, with its two scanning loops. */
    constructor Parse(proto: Proto, line: string, now: Int64, parseTime: string -> Int64)
      ensures Value() == Parsed(proto, line, now, parseTime)
    {
      origin, password, commonName, description, updated, image := FromNetwork, "", "", "", now, "";
      var user, host, found := ScanLine(proto, line, now, parseTime);
      id, domain, locations := user, host, found;
    }

    /** clean: remove_if moves the unexpired locations to the front, in order, and the rest is erased. */
    method Clean(dt: int)
      modifies this`locations
      ensures locations == Locations.Clean(old(locations), dt)
    {
      hide Locations.Clean;
      ghost var before := locations;
      var kept := 0;
      assert locations[..0] == Locations.Clean(before[..0], dt) by { CleanNothing(dt); }
      for it := 0 to |locations|
        invariant kept <= it <= |locations| == |before| && forall i :: it <= i < |before| ==> locations[i] == before[i]
        invariant locations[..kept] == Locations.Clean(before[..it], dt)
      {
        CleanNext(before, it, dt);
        if !locations[it].IsExpired(dt) {
          locations := locations[kept := locations[it]];
          kept := kept + 1;
        }
      }
      assert before[..|before|] == before;
      locations := locations[..kept];
    }

    /** getLocationIterator: purge, then the position of the first match, or the end. */
    method GetLocationIterator(search: SipLocation, since: int) returns (i: nat)
      modifies this`locations
      ensures locations == Locations.Clean(old(locations), since) && i == FindSame(locations, search)
    {
      Clean(since);
      i := FindSame(locations, search);
    }

    /** Nothing is live at `since`. */
    method IsExpired(since: int) returns (expired: bool)
      modifies this`locations
      ensures locations == Locations.Clean(old(locations), since) && (expired <==> locations == [])
    {
      var i := GetLocationIterator(PLACEHOLDER, since);
      expired := i == |locations|;
    }

    /** getLocation: afterwards the first location is the one the caller gets a reference to. */
    method GetLocation(now: int)
      modifies this`locations
      ensures locations == Located(old(locations), now)
    {
      var i := GetLocationIterator(PLACEHOLDER, now);
      if i == |locations| {
        locations := locations + [PLACEHOLDER];
      }
    }

    method RmLocation(target: Target, dt: int) returns (found: bool)
      modifies this`locations
      ensures locations == Removed(old(locations), target, dt)
      ensures found <==> locations != Locations.Clean(old(locations), dt)
    {
      Clean(dt);
      ghost var live := locations;
      if locations == [] {
        return false;
      }
      var i := FindSame(locations, if target.FirstSlot? then locations[0] else target.location);
      found := i < |locations|;
      locations := Erase(locations, i);
      assert found ==> |locations| < |live|;
    }

    method PutLocation(value: SipLocation, dt: Int64)
      modifies this`locations
      ensures locations == Put(old(locations), value, dt)
    {
      var i := GetLocationIterator(value, dt);
      if i != |locations| {
        locations := Erase(locations, i);
      }
      locations := locations + [value];
      locations := locations[|locations| - 1 := value.(registered := dt)];
    }

    /** getAddressTag purges at time zero before it prints. */
    method GetAddressTag() returns (s: string)
      modifies this`locations
      ensures locations == Locations.Clean(old(locations), 0) && s == Value().TaggedUri()
    {
      s := "<sip:" + id + "@" + domain + ">";
      var i := GetLocationIterator(PLACEHOLDER, 0);
      if i != |locations| && locations[i].tag != "" {
        s := s + (";tag=" + locations[i].tag);
      } else {
        assert s + "" == s;
      }
    }

    /** toContact purges at time zero before it prints. */
    method ToContact() returns (s: string)
      modifies this`locations
      ensures locations == Locations.Clean(old(locations), 0) && s == Contact(Value())
    {
      hide Dec, ProtoName;
      s := "";
      if commonName != "" {
        s := "\"" + Blanked(commonName) + "\" ";
      }
      s := s + "<sip" + ":" + id + "@" + domain;
      var i := GetLocationIterator(PLACEHOLDER, 0);
      var middle, tail := "", "";
      if i != |locations| {
        middle := ":" + Dec(locations[i].port);
        if ProtoName(locations[i].proto) != "" {
          middle := middle + (";proto=" + ProtoName(locations[i].proto));
        } else {
          assert middle + "" == middle;
        }
        if locations[i].tag != "" {
          tail := ";tag=" + locations[i].tag;
        }
      }
      middle := middle + ">";
      assert s == Lead(Value()) + ":" + id + "@" + domain && middle == Middle(Value()) && tail == Tail(Value());
      s := s + (middle + tail);
    }
  }

  lemma CleanNothing(t: int)
    ensures Locations.Clean([], t) == []
  {
  }

  lemma CleanNext(ls: seq<SipLocation>, i: nat, t: int)
    requires i < |ls|
    ensures Locations.Clean(ls[..i + 1], t) == Locations.Clean(ls[..i], t) + if ls[i].IsExpired(t) then [] else [ls[i]]
  {
    hide Locations.Clean;
    assert ls[..i + 1] == ls[..i] + [ls[i]];
    CleanAppend(ls[..i], [ls[i]], t);
    CleanOne([ls[i]], t);
  }

  /** The scan of the parsing constructor: what it assigns to Id, Domain and the list of locations. */
  method ScanLine(proto: Proto, line: string, now: Int64, parseTime: string -> Int64)
    returns (id: string, domain: string, locations: seq<SipLocation>)
    ensures id == Id(line) && domain == Domain(line)
    ensures locations == if HasHost(line) then [ParsedLocation(proto, line, now, parseTime)] else []
  {
    hide ParsedLocation, PrefixOf, Id, Domain, HasHost, HostStart, ColonAt, AtSign;
    IdOf(line);
    id, domain, locations := "", "", [];
    var start, prefix := 0, NoPrefix;
    var colon := ColonAt(line);
    if colon >= 0 {
      prefix := PrefixOf(line);
      var at := AtSign(line);
      if at <= 0 {
        return;
      }
      id := line[colon + 1..at];
      start := at + 1;
    }
    var location := ScanLocation(proto, prefix, line, start, now, parseTime);
    domain := location.host;
    locations := [location];
  }

  lemma IdOf(line: string)
    ensures !HasHost(line) <==> ColonAt(line) != -1 && AtSign(line) <= 0
    ensures !HasHost(line) ==> Id(line) == "" && Domain(line) == ""
    ensures HasHost(line) ==> HostStart(line) == if ColonAt(line) == -1 then 0 else AtSign(line) + 1
    ensures HasHost(line) && ColonAt(line) != -1 ==> ColonAt(line) < AtSign(line) < |line|
    ensures HasHost(line) ==> Id(line) == if ColonAt(line) == -1 then "" else line[ColonAt(line) + 1..AtSign(line)]
  {
    hide IndexOf;
  }

  /** Host, port and parameters of a line whose host starts at `start`. */
  method ScanLocation(proto: Proto, prefix: Prefix, line: string, start: nat, now: Int64, parseTime: string -> Int64)
    returns (location: SipLocation)
    requires HasHost(line) && start == HostStart(line)
    requires prefix == if ColonAt(line) == -1 then NoPrefix else PrefixOf(line)
    ensures location == ParsedLocation(proto, line, now, parseTime) && location.host == Domain(line)
  {
    hide HasHost, HostStart, ColonAt, Param, PrefixOf, ParseInt, ParseProto, PortFrom, HostEnd;
    var port, limit := ScanPort(line, start);
    var stop := ScanHost(line, start, limit);
    var named, registered, expire := Param(line, "proto", stop), Param(line, "registered", stop),
      Param(line, "expire", stop);
    location := SipLocation(
      if named == "" then proto else ParseProto(named), prefix, line[start..stop], port, Param(line, "tag", stop),
      Param(line, "line", stop), Param(line, "rinstance", stop), if expire == "" then 0 else ParseInt(expire, 0),
      if registered == "" then now else parseTime(registered));
  }

  /** The port behind the next colon, and where the host scan has to stop at the latest. */
  method ScanPort(line: string, start: nat) returns (port: Int32, limit: nat)
    requires start <= |line|
    ensures port == PortFrom(line, start)
    ensures start <= limit <= |line| && (limit == |line| || (start < limit && line[limit - 1] == ':'))
  {
    hide IndexOf, ParseInt, PortEnd;
    var colon := IndexOf(line, ':', start);
    if colon < 0 {
      return 0, |line|;
    }
    limit := colon + 1;
    var end := ScanDigits(line, limit);
    assert limit == |line| ==> line[limit..end] == "";
    port := ParseInt(line[limit..end], 0);
  }

  /** The digit loop behind the port colon. */
  method ScanDigits(line: string, from: nat) returns (end: nat)
    requires from <= |line|
    ensures end == if from == |line| then |line| else PortEnd(line, from + 1)
  {
    end := |line|;
    var i := from + 1;
    while i < |line|
      invariant from < |line| ==> from + 1 <= i <= |line| && PortEnd(line, from + 1) == PortEnd(line, i)
      invariant from == |line| ==> i == |line| + 1
    {
      if !IsDigit(line[i]) {
        end := i;
        return;
      }
      i := i + 1;
    }
  }

  /** The host loop; `limit` is the end of the line, or just behind a colon. */
  method ScanHost(line: string, start: nat, limit: nat) returns (end: nat)
    requires start <= limit <= |line| && (limit == |line| || (start < limit && line[limit - 1] == ':'))
    ensures end == HostEnd(line, start)
  {
    end := limit;
    var i := start;
    while i < limit
      invariant start <= i <= limit && HostEnd(line, start) == HostEnd(line, i)
      invariant limit < |line| ==> i < limit
    {
      if !IsHostChar(line[i]) {
        end := i;
        return;
      }
      i := i + 1;
    }
  }
}
