/** Contact header texts and how they read back (SipAddress.cpp, toContact against the parsing
    constructor). */
module Contacts {
  import opened Text
  import opened Locations
  import opened AddressText

  function Blanked(name: string): string {
    seq(|name|, i requires 0 <= i < |name| => if name[i] == '"' then ' ' else name[i])
  }

  function Lead(a: Address): string {
    (if a.commonName == "" then "" else "\"" + Blanked(a.commonName) + "\" ") + "<sip"
  }

  /** The transport parameter; nothing for an unknown transport. */
  function ProtoParam(l: SipLocation): string {
    if ProtoName(l.proto) == "" then "" else ";proto=" + ProtoName(l.proto)
  }

  function Middle(a: Address): string {
    (if a.locations == [] then "" else ":" + Dec(a.locations[0].port) + ProtoParam(a.locations[0])) + ">"
  }

  function TagOf(a: Address): string {
    if a.locations == [] then "" else a.locations[0].tag
  }

  function PortNumber(a: Address): Int32 {
    if a.locations == [] then 0 else a.locations[0].port
  }

  function Tail(a: Address): string {
    if TagOf(a) == "" then "" else ";tag=" + TagOf(a)
  }

  function Contact(a: Address): string {
    Lead(a) + ":" + a.id + "@" + a.domain + (Middle(a) + Tail(a))
  }

  /** The address in angle brackets, with port, transport and tag. */
  function Bracketed(a: Address): string {
    "<sip:" + a.Key() + (if a.locations == [] then "" else ":" + Dec(a.locations[0].port) + ProtoParam(a.locations[0]))
    + ">" + (if TagOf(a) == "" then "" else ";tag=" + TagOf(a))
  }

  /** An address, behind a quoted name where there is one: the quotes around it are the only ones, those inside are
      blanks. */
  predicate IsNameAddr(text: string, name: string, address: string) {
    if name == "" then text == address
    else
      var n := |name| + 3;
      && |text| == n + |address| && text[n..] == address
      && text[0] == '"' && text[n - 2] == '"' && text[n - 1] == ' '
      && forall i :: 0 <= i < |name| ==> text[i + 1] == if name[i] == '"' then ' ' else name[i]
  }

  lemma ContactText(a: Address)
    ensures IsNameAddr(Contact(a), a.commonName, Bracketed(a))
  {
    hide Bracketed, Blanked, IsNameAddr, Middle, Tail;
    BracketedText(a);
    if a.commonName == "" {
      assert Lead(a) == "<sip";
      PlainAddress(Bracketed(a));
    } else {
      var name := "\"" + Blanked(a.commonName) + "\" ";
      assert Contact(a) == name + ("<sip" + ":" + a.id + "@" + a.domain + (Middle(a) + Tail(a)));
      NamePart(a.commonName, Bracketed(a));
    }
  }

  lemma PlainAddress(address: string)
    ensures IsNameAddr(address, "", address)
  {
  }

  lemma BracketedText(a: Address)
    ensures "<sip" + ":" + a.id + "@" + a.domain + (Middle(a) + Tail(a)) == Bracketed(a)
  {
    hide Dec, ProtoParam;
  }

  lemma NamePart(name: string, address: string)
    requires name != ""
    ensures IsNameAddr("\"" + Blanked(name) + "\" " + address, name, address)
  {
    var lead := "\"" + Blanked(name) + "\" ";
    assert lead[|name| + 1] == '"' && lead[|name| + 2] == ' ';
    assert forall i :: 0 <= i < |name| ==> lead[i + 1] == Blanked(name)[i];
    assert (lead + address)[|lead|..] == address;
  }

  /** The transport in a contact. */
  lemma ProtoParamText(l: SipLocation)
    ensures ProtoParam(l) == match l.proto
                             case NoProto => ""
                             case Udp => ";proto=udp"
                             case Tcp => ";proto=tcp"
                             case Ws => ";proto=ws"
  {
    assert ";proto=" + "udp" == ";proto=udp" && ";proto=" + "tcp" == ";proto=tcp" && ";proto=" + "ws" == ";proto=ws";
  }

  lemma LeadIsColonFree(a: Address)
    requires Free(a.commonName, ':')
    ensures Free(Lead(a), ':')
  {
    if a.commonName != "" {
      assert Free(Blanked(a.commonName), ':');
      FreeConcat("\"", Blanked(a.commonName), ':');
      FreeConcat("\"" + Blanked(a.commonName), "\" ", ':');
      FreeConcat("\"" + Blanked(a.commonName) + "\" ", "<sip", ':');
    }
  }

  /** Every contact text has an '@' after its first colon. */
  lemma ContactHasHost(a: Address)
    ensures HasHost(Contact(a))
  {
    hide IndexOf, Lead, Middle, Tail;
    var line, c := Contact(a), |Lead(a)|;
    assert line[c] == ':' && line[c + 1 + |a.id|] == '@';
  }

  lemma ParamIsSemicolonFree(line: string, name: string, start: nat)
    ensures Free(Param(line, name, start), ';')
  {
    hide IndexOf, Find;
  }

  lemma OccursChars(s: string, mark: string, i: nat)
    requires |mark| >= 2
    ensures OccursAt(s, mark, i) ==> i + 1 < |s| && s[i] == mark[0] && s[i + 1] == mark[1]
  {
    if OccursAt(s, mark, i) {
      assert s[i] == s[i..i + |mark|][0] && s[i + 1] == s[i..i + |mark|][1];
    }
  }

  /** In the text between the host and the tag a semicolon can only start the proto parameter. */
  lemma MiddleHasNoTag(a: Address)
    ensures forall i :: 0 <= i < |Middle(a)| && Middle(a)[i] == ';' ==> i + 1 < |Middle(a)| && Middle(a)[i + 1] == 'p'
  {
    hide Dec;
    if a.locations != [] {
      var l := a.locations[0];
      DecShape(l.port);
      var head, param := ":" + Dec(l.port), ProtoParam(l);
      assert Free(head, ';');
      assert forall i :: 0 <= i < |param| && param[i] == ';' ==> i == 0 && param[1] == 'p';
      assert Middle(a) == head + param + ">";
    }
  }

  lemma DecShape(n: int)
    ensures Dec(n) != "" && Free(Dec(n), ';') && forall i :: 1 <= i < |Dec(n)| ==> IsDigit(Dec(n)[i])
  {
    hide Digits;
    var digits := Digits(if n < 0 then -n else n, 10);
    assert forall i :: 0 <= i < |digits| ==> DigitValue(digits[i]) < 10;
  }

  lemma TagReads(a: Address, line: string, stop: nat)
    requires 0 < stop <= |line| && line[stop..] == Middle(a) + Tail(a) && Free(TagOf(a), ';')
    ensures Param(line, "tag", stop) == TagOf(a)
  {
    hide Middle, IndexOf, Find;
    var rest, at, mark := line[stop..], stop + |Middle(a)|, ";tag=";
    MiddleHasNoTag(a);
    assert ";" + "tag" + "=" == mark;
    forall i: nat | stop <= i < at ensures !OccursAt(line, mark, i) {
      OccursChars(line, mark, i);
      assert line[i] == rest[i - stop] == Middle(a)[i - stop];
      assert i + 1 < at ==> line[i + 1] == rest[i + 1 - stop] == Middle(a)[i + 1 - stop];
    }
    assert line[at..] == rest[|Middle(a)|..] == Tail(a);
    if TagOf(a) == "" {
      assert at == |line|;
      assert Find(line, mark, stop) == -1;
    } else {
      ParamInside(line, "tag", stop, at, TagOf(a), "");
    }
  }

  lemma {:induction false} PortEndIs(line: string, i: nat, end: nat)
    requires i <= end <= |line| && (forall j :: i <= j < end ==> IsDigit(line[j]))
             && (end < |line| ==> !IsDigit(line[end]))
    ensures PortEnd(line, i) == end
    decreases end - i
  {
    if i < end {
      PortEndIs(line, i + 1, end);
    }
  }

  lemma PortReads(a: Address, line: string, stop: nat)
    requires HasHost(line) && HostStart(line) <= stop <= |line|
    requires Free(line[HostStart(line)..stop], ':') && line[stop..] == Middle(a) + Tail(a)
    ensures PortOf(line) == PortNumber(a)
  {
    hide *;
    if a.locations == [] {
      NothingPrinted(a);
      NoColonAhead(line, HostStart(line), stop);
      PortMissing(line);
      assert PortNumber(a) == 0 by { PortIs(a); }
    } else {
      var port, after := Dec(a.locations[0].port), ProtoParam(a.locations[0]) + ">" + Tail(a);
      DecShape(a.locations[0].port);
      DecRoundTrip(a.locations[0].port, 0);
      PortPrinted(a);
      PortAt(line, HostStart(line), stop, port, after);
      PortFound(line, stop, stop + 1 + |port|);
      PortIs(a);
    }
  }

  lemma PortIs(a: Address)
    ensures PortNumber(a) == if a.locations == [] then 0 else a.locations[0].port
  {
  }

  lemma NothingPrinted(a: Address)
    requires a.locations == []
    ensures Middle(a) + Tail(a) == ">"
  {
  }

  lemma PortPrinted(a: Address)
    requires a.locations != []
    ensures var after := ProtoParam(a.locations[0]) + ">" + Tail(a);
            Middle(a) + Tail(a) == ":" + Dec(a.locations[0].port) + after && after != "" && !IsDigit(after[0])
  {
    hide Dec, Tail, ProtoName;
  }

  lemma PortMissing(line: string)
    requires HasHost(line) && IndexOf(line, ':', HostStart(line)) == -1
    ensures PortOf(line) == 0
  {
    hide IndexOf, HasHost, HostStart;
  }

  lemma PortFound(line: string, colon: nat, end: nat)
    requires HasHost(line) && IndexOf(line, ':', HostStart(line)) == colon && colon + 1 < end <= |line|
    requires PortEnd(line, colon + 2) == end
    ensures PortOf(line) == ParseInt(line[colon + 1..end], 0)
  {
    hide IndexOf, HasHost, HostStart, PortEnd, ParseInt;
  }

  lemma NoColonAhead(line: string, start: nat, stop: nat)
    requires start <= stop <= |line| && Free(line[start..stop], ':') && line[stop..] == ">"
    ensures IndexOf(line, ':', start) == -1
  {
    hide IndexOf;
    assert forall i :: start <= i < stop ==> line[i] == line[start..stop][i - start];
    assert line[stop] == line[stop..][0];
  }

  lemma PortAt(line: string, start: nat, stop: nat, port: string, after: string)
    requires start <= stop <= |line| && Free(line[start..stop], ':') && line[stop..] == ":" + port + after
    requires port != "" && (forall i :: 1 <= i < |port| ==> IsDigit(port[i])) && (after != "" ==> !IsDigit(after[0]))
    ensures var end := stop + 1 + |port|;
            IndexOf(line, ':', start) == stop && PortEnd(line, stop + 2) == end <= |line| && line[stop + 1..end] == port
  {
    hide IndexOf, PortEnd, IsDigit;
    var rest, end := line[stop..], stop + 1 + |port|;
    assert line[stop] == rest[0] == ':';
    IndexOfIs(line, ':', start, stop);
    assert line[stop + 1..end] == rest[1..1 + |port|] == port;
    assert forall j :: stop + 2 <= j < end ==> line[j] == line[stop + 1..end][j - stop - 1];
    assert after != "" ==> line[end] == rest[1 + |port|] == after[0];
    PortEndIs(line, stop + 2, end);
  }

  lemma HostHasNoColon(host: string)
    requires AllHostChars(host)
    ensures Free(host, ':')
  {
  }

  /** An '@' stands behind the first colon of the display name, so the parser finds an address in the name. */
  predicate NameSpeaks(name: string) {
    var colon := IndexOf(name, ':', 0);
    colon != -1 && IndexOf(name, '@', colon + 1) != -1
  }

  predicate ReadsBack(a: Address, line: string)
    requires HasHost(line)
  {
    && Id(line) == a.id && Domain(line) == a.domain && PortOf(line) == PortNumber(a)
    && Param(line, "tag", HostEnd(line, HostStart(line))) == TagOf(a)
  }

  /** A printed contact reads back as the same user, host, port and tag exactly when the display name has no
      colon, the user has no '@', the host is made of letters, digits and dots, and the tag has no semicolon;
      for any port and any display name without an address in it, whether or not there is a location to print. */
  lemma ContactRoundTrip(a: Address)
    requires !NameSpeaks(a.commonName)
    ensures HasHost(Contact(a))
    ensures ReadsBack(a, Contact(a)) <==>
            Free(a.commonName, ':') && Free(a.id, '@') && AllHostChars(a.domain) && Free(TagOf(a), ';')
  {
    hide Lead, Middle, Tail, Param, HasHost, HostStart, HostEnd, PortOf, Id, Domain, Free, AllHostChars, NameSpeaks;
    var line := Contact(a);
    ContactHasHost(a);
    IdAndDomainAreClean(line);
    ParamIsSemicolonFree(line, "tag", HostEnd(line, HostStart(line)));
    if !Free(a.commonName, ':') {
      ColonInName(a);
    } else if Free(a.id, '@') && AllHostChars(a.domain) && Free(TagOf(a), ';') {
      PlainContactReads(a);
    }
  }

  lemma PlainContactReads(a: Address)
    requires Free(a.commonName, ':') && Free(a.id, '@') && AllHostChars(a.domain) && Free(TagOf(a), ';')
    ensures HasHost(Contact(a)) && ReadsBack(a, Contact(a))
  {
    hide Lead, Middle, Tail, Param, HasHost, HostStart, HostEnd, PortOf, Id, Domain, Free, AllHostChars;
    var line, rest := Contact(a), Middle(a) + Tail(a);
    LeadIsColonFree(a);
    MiddleStart(a);
    ParsesAs(line, Lead(a), a.id, a.domain, rest);
    var start, stop := HostStart(line), |line| - |rest|;
    assert line[stop..] == rest && line[start..stop] == a.domain;
    TagReads(a, line, stop);
    HostHasNoColon(a.domain);
    PortReads(a, line, stop);
  }

  /** The text behind the display name. */
  function Behind(a: Address): string {
    "\" <sip" + ":" + a.id + "@" + a.domain + (Middle(a) + Tail(a))
  }

  lemma NamedContact(a: Address)
    requires a.commonName != ""
    ensures Contact(a) == "\"" + Blanked(a.commonName) + Behind(a)
  {
    hide Middle, Tail, Blanked;
    var line, n := Contact(a), Blanked(a.commonName);
    assert Lead(a) == "\"" + n + "\" <sip";
    assert line == ("\"" + n) + ("\" <sip" + ":" + a.id + "@" + a.domain + (Middle(a) + Tail(a)));
  }

  /** The first colon of a name that has one is the first colon of the contact. */
  lemma ColonOfName(a: Address)
    requires IndexOf(a.commonName, ':', 0) != -1
    ensures ColonAt(Contact(a)) == 1 + IndexOf(a.commonName, ':', 0) && a.commonName != ""
  {
    hide IndexOf, Contact, Behind;
    var name, c := a.commonName, IndexOf(a.commonName, ':', 0);
    NamedContact(a);
    var line := Contact(a);
    assert forall i :: 0 <= i < |name| ==> line[i + 1] == Blanked(name)[i];
    assert line[c + 1] == ':';
    assert forall i :: 0 < i < c + 1 ==> line[i] == Blanked(name)[i - 1];
    IndexOfIs(line, ':', 0, c + 1);
  }

  /** With a colon in the display name, and no '@' behind it, the user read back starts inside the name. */
  lemma ColonInName(a: Address)
    requires !Free(a.commonName, ':') && !NameSpeaks(a.commonName)
    ensures Id(Contact(a)) != a.id
  {
    hide IndexOf, Contact, Behind, Blanked;
    var name, line := a.commonName, Contact(a);
    var c := IndexOf(name, ':', 0);
    ColonOfName(a);
    IdAndDomainAreClean(line);
    if Free(a.id, '@') {
      var at := |name| + 8 + |a.id|;
      AtBehindName(a, c);
      assert AtSign(line) == at;
      assert |Id(line)| > |a.id|;
    }
  }

  lemma Spread(line: string, a: string, b: string, c: string)
    requires line == a + b + c && c != ""
    ensures |a| + |b| < |line| && line[|a| + |b|] == c[0]
    ensures forall i :: 0 <= i < |a| ==> line[i] == a[i]
    ensures forall i :: |a| <= i < |a| + |b| ==> line[i] == b[i - |a|]
  {
  }

  lemma AtBehindName(a: Address, c: nat)
    requires a.commonName != "" && c < |a.commonName| && Free(a.id, '@')
    requires forall i :: c < i < |a.commonName| ==> a.commonName[i] != '@'
    ensures IndexOf(Contact(a), '@', c + 2) == |a.commonName| + 8 + |a.id|
  {
    hide *;
    var line, lead, between := Contact(a), "\"" + Blanked(a.commonName), "\" <sip:" + a.id;
    BehindStarts(a);
    FirstAt(line, lead, between, "@" + a.domain + (Middle(a) + Tail(a)), c + 2) by {
      BlankedTail(a.commonName, c);
      assert Free(between, '@') by { FreeLead(a.id); }
    }
    assert |lead| + |between| == |a.commonName| + 8 + |a.id| by { BlankedLength(a.commonName); }
  }

  /** The '@' behind two parts that have none from `start` on. */
  lemma FirstAt(line: string, a: string, b: string, c: string, start: nat)
    requires line == a + b + c && c != "" && c[0] == '@' && start <= |a|
    requires Free(b, '@') && forall i :: start <= i < |a| ==> a[i] != '@'
    ensures IndexOf(line, '@', start) == |a| + |b|
  {
    hide IndexOf;
    Spread(line, a, b, c);
    IndexOfFirst(line, '@', start, |a| + |b|);
  }

  lemma BlankedLength(name: string)
    ensures |Blanked(name)| == |name|
  {
  }

  lemma BlankedTail(name: string, c: nat)
    requires c < |name| && forall i :: c < i < |name| ==> name[i] != '@'
    ensures var lead := "\"" + Blanked(name); c + 2 <= |lead| && forall i :: c + 2 <= i < |lead| ==> lead[i] != '@'
  {
    var lead := "\"" + Blanked(name);
    forall i | c + 2 <= i < |lead| ensures lead[i] != '@' {
      assert lead[i] == Blanked(name)[i - 1];
    }
  }

  lemma FreeLead(id: string)
    requires Free(id, '@')
    ensures Free("\" <sip:" + id, '@')
  {
    FreeConcat("\" <sip:", id, '@');
  }

  lemma BehindStarts(a: Address)
    requires a.commonName != ""
    ensures Contact(a) == "\"" + Blanked(a.commonName) + ("\" <sip:" + a.id) + ("@" + a.domain + (Middle(a) + Tail(a)))
  {
    hide Middle, Tail, Blanked, Contact;
    NamedContact(a);
    assert "\" <sip" + ":" == "\" <sip:";
    assert Behind(a) == ("\" <sip:" + a.id) + ("@" + a.domain + (Middle(a) + Tail(a)));
  }

  /** A display name with an address in it is read instead of the entry's own address, so user and host read back
      exactly when the name spells them. */
  lemma NameIsRead(a: Address)
    requires NameSpeaks(a.commonName)
    ensures var name := Blanked(a.commonName);
            Id(Contact(a)) == Id(name) && Domain(Contact(a)) == Domain(name) &&
            (Id(Contact(a)) == a.id && Domain(Contact(a)) == a.domain <==> Id(name) == a.id && Domain(name) == a.domain)
  {
    hide *;
    var n, line := Blanked(a.commonName), Contact(a);
    var c, at := ColonAt(n), AtSign(n);
    NameInPlace(a);
    PartsAt(n, c, at);
    PartsAt(line, c + 1, at + 1);
    SliceInPlace(line, n, c + 1, at);
    HostInName(line, n, at + 1);
  }

  lemma PartsAt(line: string, c: nat, at: nat)
    requires ColonAt(line) == c < at == AtSign(line) < |line|
    ensures Id(line) == line[c + 1..at] && Domain(line) == line[at + 1..HostEnd(line, at + 1)]
  {
    hide ColonAt, AtSign, HostEnd;
  }

  lemma SliceInPlace(line: string, n: string, start: nat, end: nat)
    requires start <= end <= |n| && |n| + 1 < |line| && forall i :: 1 <= i < |n| + 1 ==> line[i] == n[i - 1]
    ensures line[start + 1..end + 1] == n[start..end]
  {
  }

  lemma NameInPlace(a: Address)
    requires NameSpeaks(a.commonName)
    ensures var n, line := Blanked(a.commonName), Contact(a);
            0 <= ColonAt(n) < AtSign(n) < |n| && |n| + 1 < |line|
            && ColonAt(line) == ColonAt(n) + 1 && AtSign(line) == AtSign(n) + 1
            && line[|n| + 1] == '"' && forall i :: 1 <= i < |n| + 1 ==> line[i] == n[i - 1]
  {
    hide IndexOf, Contact, Behind, Blanked;
    var n, line := Blanked(a.commonName), Contact(a);
    ColonOfName(a);
    NamedContact(a);
    BlankedMarks(a.commonName);
    BehindQuotes(a);
    Spread(line, "\"", n, Behind(a));
    IndexOfFirst(line, '@', ColonAt(n) + 2, AtSign(n) + 1);
  }

  lemma BehindQuotes(a: Address)
    ensures Behind(a) != "" && Behind(a)[0] == '"'
  {
  }

  lemma BlankedMarks(name: string)
    ensures IndexOf(Blanked(name), ':', 0) == IndexOf(name, ':', 0)
    ensures forall start: nat :: IndexOf(Blanked(name), '@', start) == IndexOf(name, '@', start)
  {
    hide IndexOf;
    var n := Blanked(name);
    assert forall i :: 0 <= i < |name| ==> (n[i] == ':' <==> name[i] == ':') && (n[i] == '@' <==> name[i] == '@');
  }

  /** A host that starts inside the name ends with it at the latest: a quote follows. */
  lemma HostInName(line: string, n: string, start: nat)
    requires start <= |n| && |n| + 1 < |line| && line[|n| + 1] == '"' && forall i :: 1 <= i < |n| + 1 ==>
             line[i] == n[i - 1]
    ensures line[start + 1..HostEnd(line, start + 1)] == n[start..HostEnd(n, start)]
  {
    hide HostEnd;
    var end := HostEnd(n, start);
    SliceInPlace(line, n, start, end);
    HostEndIs(line, start + 1, end + 1);
  }

  lemma MiddleStart(a: Address)
    ensures Middle(a) != "" && !IsHostChar((Middle(a) + Tail(a))[0])
  {
    hide Dec, ProtoName, Tail;
  }

  function TransportOf(a: Address): Proto {
    if a.locations == [] then NoProto else a.locations[0].proto
  }

  /** The transport of a contact with a plain name, user, host and tag reads back exactly when there is none to print
      and none to default to: the closing bracket stays attached to any that is printed. */
  lemma TransportRoundTrip(a: Address, default: Proto, now: Int64, parseTime: string -> Int64)
    requires Free(a.commonName, ':') && Free(a.id, '@') && AllHostChars(a.domain) && Free(TagOf(a), ';')
    ensures HasHost(Contact(a))
    ensures ParsedLocation(default, Contact(a), now, parseTime).proto == TransportOf(a) <==>
            TransportOf(a) == NoProto && default == NoProto
  {
    hide Lead, Middle, Tail, HasHost, HostStart, HostEnd, PortOf, Id, Domain, Free, AllHostChars, ParseInt, PrefixOf,
      Param, ProtoName, ParseProto;
    var line, rest := Contact(a), Middle(a) + Tail(a);
    ContactHasHost(a);
    LeadIsColonFree(a);
    MiddleStart(a);
    ParsesAs(line, Lead(a), a.id, a.domain, rest);
    var stop := |line| - |rest|;
    assert line[stop..] == rest;
    if TransportOf(a) == NoProto {
      NoProtoReads(a, line, stop);
    } else {
      ProtoReads(a, line, stop);
      BracketSpoilsProto(a.locations[0].proto);
      BracketIsSomething(a.locations[0].proto);
    }
  }

  /** Without a transport to print, no parameter is taken for one. */
  lemma NoProtoReads(a: Address, line: string, stop: nat)
    requires 0 < stop <= |line| && line[stop..] == Middle(a) + Tail(a) && TransportOf(a) == NoProto
             && Free(TagOf(a), ';')
    ensures Param(line, "proto", stop) == ""
  {
    hide IndexOf, Find, Middle, Tail;
    var rest, mark := line[stop..], ";proto=";
    assert ";" + "proto" + "=" == mark;
    PlainRest(a);
    forall i: nat | stop <= i ensures !OccursAt(line, mark, i) {
      OccursChars(line, mark, i);
      if i + 1 < |line| {
        assert line[i] == rest[i - stop] && line[i + 1] == rest[i + 1 - stop];
      }
    }
  }

  lemma PlainRest(a: Address)
    requires TransportOf(a) == NoProto && Free(TagOf(a), ';')
    ensures var rest := Middle(a) + Tail(a); forall i :: 0 <= i < |rest| - 1 && rest[i] == ';' ==> rest[i + 1] == 't'
  {
    hide Dec;
    var middle, tail := Middle(a), Tail(a);
    if a.locations != [] {
      DecShape(a.locations[0].port);
      assert middle == ":" + Dec(a.locations[0].port) + ">";
    }
    assert Free(middle, ';');
    if tail != "" {
      FreeConcat("tag=", TagOf(a), ';');
      assert tail == ";" + ("tag=" + TagOf(a));
    }
  }

  lemma BracketIsSomething(p: Proto)
    ensures ProtoName(p) + ">" != ""
  {
  }

  lemma BracketSpoilsProto(p: Proto)
    ensures ParseProto(ProtoName(p) + ">") == NoProto
  {
    var s := ProtoName(p) + ">";
    assert s[|s| - 1] == '>' && "udp"[2] == 'p' && "tcp"[2] == 'p' && "ws"[1] == 's';
  }

  lemma ProtoReads(a: Address, line: string, stop: nat)
    requires 0 < stop <= |line| && line[stop..] == Middle(a) + Tail(a)
    requires a.locations != [] && a.locations[0].proto != NoProto
    ensures Param(line, "proto", stop) == ProtoName(a.locations[0].proto) + ">"
  {
    hide IndexOf, Find, Dec, Tail, ProtoName, Middle;
    var port, value, mark := ":" + Dec(a.locations[0].port), ProtoName(a.locations[0].proto) + ">", ";proto=";
    var rest, at := line[stop..], stop + |port|;
    MiddleParts(a);
    assert ";" + "proto" + "=" == mark;
    assert rest == port + (mark + value + Tail(a));
    forall i: nat | stop <= i < at ensures !OccursAt(line, mark, i) {
      OccursChars(line, mark, i);
      assert line[i] == rest[i - stop] == port[i - stop];
    }
    assert line[at..] == rest[|port|..] == mark + value + Tail(a);
    ParamInside(line, "proto", stop, at, value, Tail(a));
  }

  lemma MiddleParts(a: Address)
    requires a.locations != [] && a.locations[0].proto != NoProto
    ensures Middle(a) == ":" + Dec(a.locations[0].port) + (";proto=" + (ProtoName(a.locations[0].proto) + ">"))
    ensures Free(":" + Dec(a.locations[0].port), ';') && Free(ProtoName(a.locations[0].proto) + ">", ';')
    ensures Tail(a) != "" ==> Tail(a)[0] == ';'
  {
    hide Dec;
    DecShape(a.locations[0].port);
  }

  /** A parameter that occurs first at `at` and is followed by another one, or by the end of the line. */
  lemma ParamInside(line: string, name: string, start: nat, at: nat, value: string, tail: string)
    requires 0 < at && start <= at <= |line| && Free(value, ';') && (tail != "" ==> tail[0] == ';')
    requires line[at..] == ";" + name + "=" + value + tail
    requires forall i: nat :: start <= i < at ==> !OccursAt(line, ";" + name + "=", i)
    ensures Param(line, name, start) == value
  {
    hide IndexOf, Find, OccursAt;
    var mark := ";" + name + "=";
    MarkedParts(line, at, mark, value, tail);
    assert Find(line, mark, start) == at;
    ValueEnds(line, at + |mark|, value, tail);
  }

  /** The three parts of the text behind `at`, in place. */
  lemma MarkedParts(line: string, at: nat, mark: string, value: string, tail: string)
    requires at <= |line| && line[at..] == mark + value + tail
    ensures OccursAt(line, mark, at) && at + |mark| <= |line| && line[at + |mark|..] == value + tail
  {
    assert line[at..at + |mark|] == line[at..][..|mark|] == mark;
    assert line[at + |mark|..] == line[at..][|mark|..];
  }

  lemma ValueEnds(line: string, from: nat, value: string, tail: string)
    requires from <= |line| && line[from..] == value + tail && Free(value, ';') && (tail != "" ==> tail[0] == ';')
    ensures var next := IndexOf(line, ';', from); value == line[from..if next == -1 then |line| else next]
  {
    hide IndexOf;
    var rest, end := line[from..], from + |value|;
    assert line[from..end] == rest[..|value|] == value;
    if tail != "" {
      assert line[end] == rest[|value|] == tail[0];
      IndexOfIs(line, ';', from, end);
    } else {
      assert forall i :: from <= i < |line| ==> line[i] == value[i - from];
    }
  }
}
