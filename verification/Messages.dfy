/** SIP messages and their header parameters (SipMessage.h, SipMessage.cpp). */
module Messages {
  import opened Wrappers
  import opened Text
  import opened Locations

  type Handle = nat

  datatype Command =
    Invalid | Response | Ack | Bye | Cancel | Invite | Options | Register | Notify | Subscribe | Message
    | Refer | Info | Prack | Update | Publish

  function CommandName(c: Command): string {
    match c
    case Invalid => ""
    case Response => "RESPONSE"
    case Ack => "ACK"
    case Bye => "BYE"
    case Cancel => "CANCEL"
    case Invite => "INVITE"
    case Options => "OPTIONS"
    case Register => "REGISTER"
    case Notify => "NOTIFY"
    case Subscribe => "SUBSCRIBE"
    case Message => "MESSAGE"
    case Refer => "REFER"
    case Info => "INFO"
    case Prack => "PRACK"
    case Update => "UPDATE"
    case Publish => "PUBLISH"
  }

  /** getCommand. */
  function CommandOf(name: string): Command {
    if name == "REGISTER" then Register
    else if name == "INVITE" then Invite
    else if name == "REFER" then Refer
    else if name == "BYE" then Bye
    else if name == "NOTIFY" then Notify
    else if name == "ACK" then Ack
    else if name == "CANCEL" then Cancel
    else if name == "OPTIONS" then Options
    else if name == "SUBSCRIBE" then Subscribe
    else if name == "MESSAGE" then Message
    else if name == "INFO" then Info
    else if name == "PRACK" then Prack
    else if name == "UPDATE" then Update
    else if name == "PUBLISH" then Publish
    else Invalid
  }

  /** Every method is known by its name, and by no other. */
  lemma CommandRoundTrip(c: Command, name: string)
    requires c != Invalid && c != Response
    ensures CommandOf(name) == c <==> name == CommandName(c)
  {
    assert "REGISTER"[2] == 'G' && "REFER"[2] == 'F' && "INVITE"[2] == 'V' && "INFO"[2] == 'F' && "BYE"[0] == 'B';
    assert "ACK"[0] == 'A' && "CANCEL"[0] == 'C' && "NOTIFY"[0] == 'N' && "OPTIONS"[0] == 'O' && "SUBSCRIBE"[0] == 'S';
    assert "MESSAGE"[0] == 'M' && "PRACK"[1] == 'R' && "UPDATE"[0] == 'U' && "PUBLISH"[1] == 'U';
  }

  /** The two bits of a message's sentCode: which listener has already tried to send it. */
  datatype Listener = SocketListener | ConnectionListener

  const ALLOWED_METHODS := "REGISTER" + ", " + ("INVITE" + ", " + ("ACK" + ", " + ("BYE" + ", "
    + ("OPTIONS" + ", " + ("CANCEL" + ", " + "MESSAGE")))))

  /** An IPv4 socket address: the dotted text of the address and the port field. */
  datatype Endpoint = Endpoint(ip: string, port: Port)

  type Headers = map<string, string>

  /** operator[] on a header map: the value read, and the map after the read. */
  function Get(h: Headers, name: string): string {
    if name in h then h[name] else ""
  }

  function Touch(h: Headers, name: string): (r: Headers)
    ensures forall n :: Get(r, n) == Get(h, n)
    ensures r.Keys == h.Keys + {name}
  {
    if name in h then h else h[name := ""]
  }

  datatype SipMessage = SipMessage(
    headers: Headers, body: string, command: Command, code: int, commandParam: string, proto: Proto,
    address: Endpoint, key: string, keyFrom: string, sentCode: set<Listener>, conn: Option<Handle>)
  {
    function Touched(name: string): SipMessage {
      this.(headers := Touch(headers, name))
    }

    function WithHeader(name: string, value: string): SipMessage {
      this.(headers := headers[name := value])
    }

    function WithPort(port: int): SipMessage {
      this.(address := address.(port := port % 0x1_0000))
    }

    function AddParameter(header: string, parameter: string, value: string): SipMessage {
      WithHeader(header, Get(headers, header) + ";" + parameter + "=" + value)
    }

    /** getMaxForwards: 1 when there is no usable header. */
    function MaxForwards(): Int32 {
      ParseInt(Get(headers, "Max-Forwards"), 1)
    }

    function WithMaxForwards(value: int): SipMessage {
      WithHeader("Max-Forwards", Dec(value))
    }

    /** getExpires: one hour when there is no usable header. */
    function Expires(): Int32 {
      ParseInt(Get(headers, "Expires"), 3600)
    }
  }

  predicate IsAlpha(c: char) {
    'a' <= c <= 'z' || 'A' <= c <= 'Z'
  }

  /** The first occurrence of a parameter name that is not part of a longer word. */
  function WordAt(v: string, word: string, start: nat): (r: int)
    requires start <= |v| + 1
    ensures r == -1 || (0 <= r && OccursAt(v, word, r))
    decreases |v| + 1 - start
  {
    var p := Find(v, word, start);
    if p < 0 then -1
    else if (p > 0 && IsAlpha(v[p - 1])) || (p + |word| < |v| && IsAlpha(v[p + |word|])) then WordAt(v, word, p + 1)
    else p
  }

  /** Where the parameter at `p` ends: behind its semicolon. */
  function ParameterEnd(v: string, p: nat): nat {
    var semicolon := IndexOf(v, ';', p);
    if semicolon == -1 then |v| else semicolon + 1
  }

  predicate HasParameter(v: string, parameter: string) {
    WordAt(v, parameter, 0) != -1
  }

  /** getHeaderParameter.  The second argument of substr is a length, so the value can run past the
      semicolon. */
  function ParameterOf(v: string, parameter: string): string {
    var p := WordAt(v, parameter, 0);
    if p == -1 then ""
    else
      var from, end := p + |parameter| + 1, ParameterEnd(v, p + |parameter|);
      if from >= end then ""
      else if from <= |v| then v[from..if from + end < |v| then from + end else |v|]
      else ""
  }

  function ReplaceParameter(v: string, parameter: string, value: string): string {
    var p := WordAt(v, parameter, 0);
    if p == -1 then v + ";" + value
    else
      var end := ParameterEnd(v, p + |parameter|);
      var rest := if end <= |v| then v[end..] else "";
      v[..p] + value + (if rest != "" && rest[0] != ';' then ";" else "") + rest
  }
}
