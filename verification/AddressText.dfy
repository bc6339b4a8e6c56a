/** SIP address texts: what the parsing constructor recognises and what the printers write
    (SipAddress.cpp). */
module AddressText {
  import opened Text
  import opened Locations

  datatype Origin = FromRegistry | FromNetwork

  /** The fields of a SipAddress. */
  datatype Address = Address(
    origin: Origin, locations: seq<SipLocation>, password: string, commonName: string, description: string,
    id: string, domain: string, updated: Int64, image: string)
  {
    /** getKey. */
    function Key(): string {
      id + "@" + domain
    }

    /** getAddress. */
    function Uri(): string {
      "sip:" + id + "@" + domain
    }

    /** getAddressTag, printed from the first location. */
    function TaggedUri(): string {
      "<sip:" + id + "@" + domain + ">"
      + if locations != [] && locations[0].tag != "" then ";tag=" + locations[0].tag else ""
    }
  }

  // ---------------------------------------------------------------- parsing

  function ColonAt(line: string): (r: int)
    ensures -1 <= r < |line|
  {
    IndexOf(line, ':', 0)
  }

  function AtSign(line: string): int {
    IndexOf(line, '@', ColonAt(line) + 1)
  }

  /** A line with a colon but no '@' after it is given up on. */
  predicate HasHost(line: string) {
    ColonAt(line) == -1 || AtSign(line) != -1
  }

  function HostStart(line: string): (r: nat)
    requires HasHost(line)
    ensures r <= |line|
  {
    if ColonAt(line) == -1 then 0 else AtSign(line) + 1
  }

  /** The first position at or after `start` that cannot be part of a host name. */
  function HostEnd(line: string, start: nat): (r: nat)
    requires start <= |line|
    ensures start <= r <= |line| && AllHostChars(line[start..r]) && (r < |line| ==> !IsHostChar(line[r]))
    decreases |line| - start
  {
    if start < |line| && IsHostChar(line[start]) then
      var r := HostEnd(line, start + 1);
      assert line[start..r] == [line[start]] + line[start + 1..r];
      r
    else start
  }

  function Id(line: string): string {
    if ColonAt(line) == -1 || AtSign(line) == -1 then "" else line[ColonAt(line) + 1..AtSign(line)]
  }

  function Domain(line: string): string {
    if HasHost(line) then line[HostStart(line)..HostEnd(line, HostStart(line))] else ""
  }

  /** The registry key a header text resolves to. */
  function KeyOf(line: string): string {
    Id(line) + "@" + Domain(line)
  }

  /** Where the digits after a port colon stop; the first character is taken unseen. */
  function PortEnd(line: string, i: nat): (r: nat)
    requires i <= |line|
    ensures i <= r <= |line| && (r < |line| ==> !IsDigit(line[r])) && forall j :: i <= j < r ==> IsDigit(line[j])
    decreases |line| - i
  {
    if i < |line| && IsDigit(line[i]) then PortEnd(line, i + 1) else i
  }

  /** The port behind the first colon at or after `start`. */
  function PortFrom(line: string, start: nat): Int32 {
    var colon := IndexOf(line, ':', start);
    if colon == -1 then 0
    else if colon + 1 == |line| then ParseInt("", 0)
    else ParseInt(line[colon + 1..PortEnd(line, colon + 2)], 0)
  }

  function PortOf(line: string): Int32
    requires HasHost(line)
  {
    PortFrom(line, HostStart(line))
  }

  function Param(line: string, name: string, start: nat): string {
    var at := Find(line, ";" + name + "=", start);
    if at <= 0 then ""
    else
      var from := at + |name| + 2;
      var next := IndexOf(line, ';', from);
      line[from..if next <= 0 then |line| else next]
  }

  /** The prefix test asks whether the text before the colon occurs in the scheme name. */
  function PrefixOf(line: string): Prefix
    requires ColonAt(line) != -1
  {
    var before := line[..ColonAt(line)];
    if Contains("sips", before) then SipsPrefix
    else if Contains("sip", before) then SipPrefix
    else if Contains("wss", before) then WsPrefix
    else if Contains("ws", before) then WssPrefix
    else NoPrefix
  }

  /** `parseTime` stands for parseTime_t, which formats an uninitialised time. */
  function ParsedLocation(proto: Proto, line: string, now: Int64, parseTime: string -> Int64): SipLocation
    requires HasHost(line)
  {
    var stop := HostEnd(line, HostStart(line));
    var named, registered, expire := Param(line, "proto", stop), Param(line, "registered", stop),
      Param(line, "expire", stop);
    SipLocation(
      if named == "" then proto else ParseProto(named),
      if ColonAt(line) == -1 then NoPrefix else PrefixOf(line),
      Domain(line), PortOf(line), Param(line, "tag", stop), Param(line, "line", stop), Param(line, "rinstance", stop),
      if expire == "" then 0 else ParseInt(expire, 0),
      if registered == "" then now else parseTime(registered))
  }

  function Parsed(proto: Proto, line: string, now: Int64, parseTime: string -> Int64): Address {
    Address(FromNetwork, if HasHost(line) then [ParsedLocation(proto, line, now, parseTime)] else [],
            "", "", "", Id(line), Domain(line), now, "")
  }

  // ---------------------------------------------------------------- what parsing can produce

  lemma IdAndDomainAreClean(line: string)
    ensures Free(Id(line), '@') && AllHostChars(Domain(line)) && Free(Domain(line), '@')
  {
    hide IndexOf, HostEnd;
  }

  /** A line of the usual shape parses to its parts. */
  lemma ParsesAs(line: string, before: string, id: string, domain: string, rest: string)
    requires line == before + ":" + id + "@" + domain + rest
    requires Free(before, ':') && Free(id, '@') && AllHostChars(domain)
    requires rest != "" ==> !IsHostChar(rest[0])
    ensures HasHost(line) && Id(line) == id && Domain(line) == domain
    ensures HostStart(line) == |before| + |id| + 2 && HostEnd(line, HostStart(line)) == |line| - |rest|
  {
    hide Id, Domain, HasHost, HostStart, HostEnd;
    var c, a, e := |before|, |before| + 1 + |id|, |line| - |rest|;
    var head := before + ":" + id + "@" + domain;
    assert line[..e] == head && line[e..] == rest;
    assert head[..c] == before && head[c] == ':' && head[c + 1..a] == id && head[a] == '@' && head[a + 1..] == domain;
    assert line[..c] == before && line[c] == ':' && line[c + 1..a] == id && line[a] == '@' && line[a + 1..e] == domain;
    ParsesAt(line, c, a, e);
  }

  lemma ParsesAt(line: string, c: nat, a: nat, e: nat)
    requires c < a < e <= |line|
    requires line[c] == ':' && Free(line[..c], ':') && line[a] == '@' && Free(line[c + 1..a], '@')
    requires AllHostChars(line[a + 1..e]) && (e < |line| ==> !IsHostChar(line[e]))
    ensures HasHost(line) && Id(line) == line[c + 1..a] && Domain(line) == line[a + 1..e]
    ensures HostStart(line) == a + 1 && HostEnd(line, a + 1) == e
  {
    hide IndexOf, HostEnd, Free, AllHostChars;
    assert line[0..c] == line[..c];
    IndexOfIs(line, ':', 0, c);
    IndexOfIs(line, '@', c + 1, a);
    HostEndIs(line, a + 1, e);
  }

  lemma {:induction false} HostEndIs(line: string, start: nat, end: nat)
    requires start <= end <= |line| && AllHostChars(line[start..end])
    requires end < |line| ==> !IsHostChar(line[end])
    ensures HostEnd(line, start) == end
    decreases end - start
  {
    if start < end {
      assert line[start] == line[start..end][0];
      assert line[start + 1..end] == line[start..end][1..];
      HostEndIs(line, start + 1, end);
    }
  }

  // ---------------------------------------------------------------- keys

  /** A key with one '@' splits in one way only. */
  lemma KeySplits(id: string, domain: string, id': string, domain': string)
    requires id + "@" + domain == id' + "@" + domain'
    requires Free(id, '@') && Free(domain, '@')
    ensures id == id' && domain == domain'
  {
    var key, n := id + "@" + domain, |id'|;
    assert key[|id|] == '@' && key[n] == (id' + "@" + domain')[n] == '@';
    assert forall i :: |id| < i < |key| ==> key[i] == domain[i - |id| - 1];
    assert forall i :: 0 <= i < |id| ==> key[i] == id[i];
    assert n == |id|;
    assert id == key[..n] && id' == key[..n];
    assert domain == key[n + 1..] && domain' == key[n + 1..];
  }

  /** When a header text resolves to an entry stored under that entry's own key, the entry's own printed
      forms resolve to the same key. */
  lemma ResolutionIsStable(line: string, e: Address)
    requires KeyOf(line) == e.Key()
    ensures e.id == Id(line) && e.domain == Domain(line)
    ensures KeyOf(e.Uri()) == e.Key() && KeyOf(e.TaggedUri()) == e.Key()
  {
    hide Id, Domain;
    IdAndDomainAreClean(line);
    KeySplits(Id(line), Domain(line), e.id, e.domain);
    OwnTextsResolve(e);
  }

  lemma OwnTextsResolve(e: Address)
    requires Free(e.id, '@') && AllHostChars(e.domain)
    ensures KeyOf(e.Uri()) == e.Key() && KeyOf(e.TaggedUri()) == e.Key()
  {
    hide Id, Domain, HasHost, HostStart, HostEnd;
    assert e.Uri() == "sip" + ":" + e.id + "@" + e.domain + "";
    ParsesAs(e.Uri(), "sip", e.id, e.domain, "");
    var tag := if e.locations != [] && e.locations[0].tag != "" then ";tag=" + e.locations[0].tag else "";
    assert e.TaggedUri() == "<sip" + ":" + e.id + "@" + e.domain + (">" + tag);
    ParsesAs(e.TaggedUri(), "<sip", e.id, e.domain, ">" + tag);
  }
}
