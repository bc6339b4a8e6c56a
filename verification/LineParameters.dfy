/** What the parsing constructor reads from an address with parameters behind it (SipAddress.cpp; section 19.1 of
    RFC 3261). */
module LineParameters {
  import opened Text
  import opened Locations
  import opened AddressText
  import opened Contacts
  import opened Json

  datatype Parameter = Parameter(name: string, value: string) {
    function Text(): string {
      ";" + name + "=" + value
    }

    predicate Plain() {
      Free(name, ';') && Free(name, '=') && Free(value, ';')
    }
  }

  function ParametersText(ps: seq<Parameter>): string {
    if ps == [] then "" else ps[0].Text() + ParametersText(ps[1..])
  }

  /** The value of the first parameter of that name, or nothing. */
  function ValueOf(ps: seq<Parameter>, name: string): string {
    if ps == [] then "" else if ps[0].name == name then ps[0].value else ValueOf(ps[1..], name)
  }

  predicate AllPlain(ps: seq<Parameter>) {
    forall i :: 0 <= i < |ps| ==> ps[i].Plain()
  }

  /** No parameter mark of that name between the two positions. */
  predicate Unmarked(line: string, name: string, start: nat, end: nat) {
    forall i: nat :: start <= i < end ==> !OccursAt(line, ";" + name + "=", i)
  }

  lemma PlainIsUnmarked(line: string, name: string, start: nat, end: nat)
    requires start <= end <= |line| && Free(line[start..end], ';')
    ensures Unmarked(line, name, start, end)
  {
    hide OccursAt;
    forall i: nat | start <= i < end ensures !OccursAt(line, ";" + name + "=", i) {
      assert line[i] == line[start..end][i - start];
      if OccursAt(line, ";" + name + "=", i) {
        FirstOf(line, ";" + name + "=", i);
      }
    }
  }

  /** The mark of one name is not the start of a parameter with another one. */
  lemma OtherMark(line: string, at: nat, p: Parameter, name: string)
    requires at + |p.Text()| <= |line| && line[at..at + |p.Text()|] == p.Text()
    requires p.Plain() && Free(name, '=') && p.name != name
    ensures !OccursAt(line, ";" + name + "=", at)
  {
    var i := TextsDiffer(p, name);
    assert line[at + i] == line[at..at + |p.Text()|][i];
  }

  lemma TextsDiffer(p: Parameter, name: string) returns (i: nat)
    requires p.Plain() && Free(name, '=') && p.name != name
    ensures i < |p.Text()| && i < |";" + name + "="| && p.Text()[i] != (";" + name + "=")[i]
  {
    var n, k := |p.name|, |name|;
    if n < k {
      i := n + 1;
      assert (";" + name + "=")[i] == name[n];
    } else if k < n {
      i := k + 1;
      assert p.Text()[i] == p.name[k];
    } else {
      var j :| 0 <= j < n && p.name[j] != name[j];
      i := j + 1;
      assert p.Text()[i] == p.name[j] && (";" + name + "=")[i] == name[j];
    }
  }

  lemma ParameterSplits(p: Parameter)
    requires p.Plain()
    ensures p.Text() != "" && p.Text()[0] == ';' && Free(p.Text()[1..], ';')
  {
    assert p.Text()[1..] == p.name + "=" + p.value;
    FreeConcat(p.name, "=", ';');
    FreeConcat(p.name + "=", p.value, ';');
  }

  /** One parameter of another name holds no mark of this one. */
  lemma SkipsOne(line: string, at: nat, p: Parameter, name: string, start: nat)
    requires at + |p.Text()| <= |line| && line[at..at + |p.Text()|] == p.Text()
    requires p.Plain() && Free(name, '=') && p.name != name && start <= at && Unmarked(line, name, start, at)
    ensures Unmarked(line, name, start, at + |p.Text()|)
  {
    hide OccursAt, Parameter.Text;
    OtherMark(line, at, p, name);
    ParameterSplits(p);
    var end := at + |p.Text()|;
    assert line[at + 1..end] == line[at..end][1..];
    PlainIsUnmarked(line, name, at + 1, end);
  }

  /** Behind a text without its mark, a parameter reads as the first one of that name. */
  lemma {:induction false} ParamIsValueOf(line: string, lead: string, ps: seq<Parameter>, name: string, start: nat)
    requires line == lead + ParametersText(ps) && AllPlain(ps) && Free(name, '=')
    requires 0 < start <= |lead| && Unmarked(line, name, start, |lead|)
    ensures Param(line, name, start) == ValueOf(ps, name)
    decreases |ps|
  {
    hide OccursAt, Param, Parameter.Text, Unmarked;
    if ps == [] {
      assert line == lead;
      NoMark(line, name, start);
    } else {
      var p, next := ps[0], lead + ps[0].Text();
      assert line == next + ParametersText(ps[1..]);
      assert line[|lead|..|next|] == p.Text();
      if p.name == name {
        RestIsSeparate(ps[1..]);
        MarkFound(line, start, |lead|, p, ParametersText(ps[1..]));
      } else {
        SkipsOne(line, |lead|, p, name, start);
        assert AllPlain(ps[1..]);
        ParamIsValueOf(line, next, ps[1..], name, start);
      }
    }
  }

  lemma NoMark(line: string, name: string, start: nat)
    requires Unmarked(line, name, start, |line|)
    ensures Param(line, name, start) == ""
  {
    hide OccursAt;
    var mark := ";" + name + "=";
    forall i: nat | start <= i ensures !OccursAt(line, mark, i) {
      if OccursAt(line, mark, i) {
        FirstOf(line, ";" + name + "=", i);
      }
    }
    assert Find(line, mark, start) == -1;
  }

  lemma RestIsSeparate(ps: seq<Parameter>)
    ensures ParametersText(ps) == "" || ParametersText(ps)[0] == ';'
  {
  }

  lemma MarkFound(line: string, start: nat, at: nat, p: Parameter, rest: string)
    requires 0 < start <= at <= |line| && line[at..] == p.Text() + rest && p.Plain() && (rest == "" || rest[0] == ';')
    requires Unmarked(line, p.name, start, at)
    ensures Param(line, p.name, start) == p.value
  {
    hide Param, OccursAt;
    ParamInside(line, p.name, start, at, p.value, rest);
  }

  // ---------------------------------------------------------------- a whole line

  /** A SIP address with a port and parameters. */
  function LineText(scheme: string, id: string, domain: string, port: Int32, ps: seq<Parameter>): string {
    scheme + ":" + id + "@" + domain + (":" + Dec(port) + ParametersText(ps))
  }

  lemma LinePort(line: string, stop: nat, domain: string, port: Int32, ps: seq<Parameter>)
    requires HasHost(line) && HostStart(line) <= stop <= |line| && line[HostStart(line)..stop] == domain
    requires AllHostChars(domain) && line[stop..] == ":" + Dec(port) + ParametersText(ps)
    ensures PortOf(line) == port
  {
    hide *;
    DecShape(port);
    DecRoundTrip(port, 0);
    HostHasNoColon(domain);
    RestIsSeparate(ps);
    assert ParametersText(ps) != "" ==> !IsDigit(ParametersText(ps)[0]) by { SemicolonIsNoDigit(); }
    PortAt(line, HostStart(line), stop, Dec(port), ParametersText(ps));
    PortFound(line, stop, stop + 1 + |Dec(port)|);
  }

  lemma SemicolonIsNoDigit()
    ensures !IsDigit(';')
  {
  }

  lemma BehindPort(line: string, stop: nat, port: Int32, ps: seq<Parameter>, name: string)
    requires 0 < stop <= |line| && line[stop..] == ":" + Dec(port) + ParametersText(ps)
    requires AllPlain(ps) && Free(name, '=')
    ensures Param(line, name, stop) == ValueOf(ps, name)
  {
    hide Param, Dec, ParametersText, ValueOf, AllPlain, Unmarked;
    DecShape(port);
    var lead := line[..stop] + (":" + Dec(port));
    assert line == line[..stop] + line[stop..] == lead + ParametersText(ps);
    assert line[stop..|lead|] == ":" + Dec(port);
    FreeConcat(":", Dec(port), ';');
    PlainIsUnmarked(line, name, stop, |lead|);
    ParamIsValueOf(line, lead, ps, name, stop);
  }

  lemma EmptyReads()
    ensures ParseInt("", 0) == 0
  {
  }

  /** Everything in such a line is read: user, host, port, and of every parameter name the first value. */
  lemma LineReads(scheme: string, id: string, domain: string, port: Int32, ps: seq<Parameter>, proto: Proto,
                  now: Int64, parseTime: string -> Int64)
    requires Free(scheme, ':') && Free(id, '@') && AllHostChars(domain) && AllPlain(ps)
    ensures var line := LineText(scheme, id, domain, port, ps);
            var a := Parsed(proto, line, now, parseTime);
            a.id == id && a.domain == domain && |a.locations| == 1 &&
            var l := a.locations[0];
            var named, time := ValueOf(ps, "proto"), ValueOf(ps, "registered");
            l.host == domain && l.port == port && l.tag == ValueOf(ps, "tag") && l.line == ValueOf(ps, "line")
            && l.rinstance == ValueOf(ps, "rinstance") && l.expire == ParseInt(ValueOf(ps, "expire"), 0)
            && l.proto == (if named == "" then proto else ParseProto(named))
            && l.registered == (if time == "" then now else parseTime(time))
  {
    hide Param, PrefixOf, PortOf, ParseInt, ParseProto, Id, AddressText.Domain, HasHost, HostStart, HostEnd, Dec,
      ParametersText, ValueOf, AllPlain;
    var line, rest := LineText(scheme, id, domain, port, ps), ":" + Dec(port) + ParametersText(ps);
    ParsesAs(line, scheme, id, domain, rest);
    var stop := |line| - |rest|;
    assert line[stop..] == rest && line[HostStart(line)..stop] == domain;
    LinePort(line, stop, domain, port, ps);
    BehindPort(line, stop, port, ps, "tag");
    BehindPort(line, stop, port, ps, "line");
    BehindPort(line, stop, port, ps, "rinstance");
    BehindPort(line, stop, port, ps, "expire");
    BehindPort(line, stop, port, ps, "proto");
    BehindPort(line, stop, port, ps, "registered");
    EmptyReads();
  }

  /** The tag of an entry is read back from its tagged address. */
  lemma TagReadsBack(a: Address, proto: Proto, now: Int64, parseTime: string -> Int64)
    requires Free(a.id, '@') && AllHostChars(a.domain)
    requires a.locations != [] && Free(a.locations[0].tag, ';')
    ensures var read := Parsed(proto, a.TaggedUri(), now, parseTime);
            read.id == a.id && read.domain == a.domain && |read.locations| == 1
            && read.locations[0].tag == a.locations[0].tag
  {
    hide Param, PrefixOf, PortOf, ParseInt, ParseProto, Id, AddressText.Domain, HasHost, HostStart, HostEnd,
      ParametersText, ValueOf, AllPlain;
    var tag, line := a.locations[0].tag, a.TaggedUri();
    var ps := if tag == "" then [] else [Parameter("tag", tag)];
    var head := "<sip" + ":" + a.id + "@" + a.domain;
    TagText(tag, ps);
    assert line == head + (">" + ParametersText(ps));
    ParsesAs(line, "<sip", a.id, a.domain, ">" + ParametersText(ps));
    BehindBracket(line, head, ps);
  }

  lemma BehindBracket(line: string, head: string, ps: seq<Parameter>)
    requires line == head + (">" + ParametersText(ps)) && AllPlain(ps) && head != ""
    ensures |head| == |line| - |">" + ParametersText(ps)| && Param(line, "tag", |head|) == ValueOf(ps, "tag")
  {
    hide Param, ParametersText, ValueOf, AllPlain, Unmarked;
    assert line == (head + ">") + ParametersText(ps);
    assert line[|head|..|head| + 1] == ">";
    PlainIsUnmarked(line, "tag", |head|, |head| + 1);
    ParamIsValueOf(line, head + ">", ps, "tag", |head|);
  }

  lemma TagText(tag: string, ps: seq<Parameter>)
    requires Free(tag, ';') && ps == if tag == "" then [] else [Parameter("tag", tag)]
    ensures AllPlain(ps) && ValueOf(ps, "tag") == tag && ParametersText(ps) == if tag == "" then "" else ";tag=" + tag
    ensures Free("tag", '=')
  {
    if tag != "" {
      assert ps[1..] == [];
      assert ";" + "tag" + "=" + tag == ";tag=" + tag;
    }
  }

  // ---------------------------------------------------------------- schemes

  /** The test for a scheme is the wrong way around: it asks whether the text before the colon occurs in the name of
      the scheme, so no line is ever read as plain sip or as wss, and every part of "sips" counts as sips. */
  lemma SchemesRead(line: string, scheme: Prefix)
    requires ColonAt(line) != -1
    ensures PrefixOf(line) in {NoPrefix, SipsPrefix, WsPrefix}
    ensures scheme != NoPrefix && line[..ColonAt(line)] == PrefixName(scheme) ==>
              (PrefixOf(line) == scheme <==> scheme == SipsPrefix || scheme == WsPrefix)
  {
    hide Find, ColonAt;
    var before := line[..ColonAt(line)];
    PartOf("sip", "sips", before);
    PartOf("ws", "wss", before);
    assert OccursAt("sips", "sips", 0) && OccursAt("sips", "sip", 0);
    assert OccursAt("wss", "ws", 0) && OccursAt("wss", "wss", 0);
    NotIn("sips", "ws");
    NotIn("sips", "wss");
    NotIn("sip", "ws");
    NotIn("sip", "wss");
  }

  /** What occurs in a text occurs in any text that starts with it. */
  lemma PartOf(short: string, long: string, t: string)
    requires |short| <= |long| && long[..|short|] == short
    ensures Contains(short, t) ==> Contains(long, t)
  {
    hide Find;
    if Contains(short, t) {
      var i := Find(short, t, 0);
      assert long[..|short|][i..i + |t|] == long[i..i + |t|];
      assert OccursAt(long, t, i);
    }
  }

  lemma NotIn(s: string, t: string)
    requires t != "" && t[0] == 'w' && Free(s, 'w')
    ensures !Contains(s, t)
  {
    hide Find, OccursAt;
    var i := Find(s, t, 0);
    if i != -1 {
      FirstOf(s, t, i);
    }
  }

  lemma FirstOf(s: string, t: string, i: nat)
    requires OccursAt(s, t, i) && t != ""
    ensures i < |s| && s[i] == t[0]
  {
    assert s[i] == s[i..i + |t|][0];
  }
}
