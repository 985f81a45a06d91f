/** SIP messages: `Serialize` and `Parse` of src/gb28181/sip_message.cpp (section 7 of RFC 3261). */
module Sip {
  import opened Bytes
  import opened Text

  // ---- messages ----------------------------------------------------------------------------------------

  datatype Method = UNKNOWN | REGISTER | INVITE | ACK | BYE | CANCEL | MESSAGE | OPTIONS | SUBSCRIBE | NOTIFY

  datatype FirstLine =
    | Request(verb: Method, uri: seq<byte>)
    | Response(status: nat, reason: seq<byte>)

  type Headers = map<seq<byte>, seq<byte>>

  /** Header names are in lower case. */
  datatype Message = Message(first: FirstLine, headers: Headers, body: seq<byte>)

  function MethodToString(m: Method): seq<byte> {
    match m
    case REGISTER => Ascii("REGISTER")
    case INVITE => Ascii("INVITE")
    case ACK => Ascii("ACK")
    case BYE => Ascii("BYE")
    case CANCEL => Ascii("CANCEL")
    case MESSAGE => Ascii("MESSAGE")
    case OPTIONS => Ascii("OPTIONS")
    case SUBSCRIBE => Ascii("SUBSCRIBE")
    case NOTIFY => Ascii("NOTIFY")
    case UNKNOWN => Ascii("UNKNOWN")
  }

  function StringToMethod(s: seq<byte>): Method {
    if s == Ascii("REGISTER") then REGISTER
    else if s == Ascii("INVITE") then INVITE
    else if s == Ascii("ACK") then ACK
    else if s == Ascii("BYE") then BYE
    else if s == Ascii("CANCEL") then CANCEL
    else if s == Ascii("MESSAGE") then MESSAGE
    else if s == Ascii("OPTIONS") then OPTIONS
    else if s == Ascii("SUBSCRIBE") then SUBSCRIBE
    else if s == Ascii("NOTIFY") then NOTIFY
    else UNKNOWN
  }

  function Version(): seq<byte> {
    Ascii("SIP/2.0")
  }

  function ContentLengthName(): seq<byte> {
    Ascii("Content-Length")
  }

  function ContentLengthKey(): seq<byte> {
    Lower(ContentLengthName())
  }

  // ---- the text of a message -----------------------------------------------------------------------------

  function StartLine(f: FirstLine): seq<byte> {
    match f
    case Request(verb, uri) => Words(MethodToString(verb), uri, Version())
    case Response(status, reason) => Words(Version(), Decimal(status), reason)
  }

  function LinesText(lines: seq<seq<byte>>): seq<byte> {
    if lines == [] then [] else Crlf(lines[0]) + LinesText(lines[1..])
  }

  /** The fields of the header map, in the order of `keys`. */
  function FieldLines(keys: seq<seq<byte>>, headers: Headers): (r: seq<seq<byte>>)
    requires forall k :: k in keys ==> k in headers
    ensures |r| == |keys|
  {
    if keys == [] then [] else [Field(keys[0], headers[keys[0]])] + FieldLines(keys[1..], headers)
  }

  /** The lines before the empty one. A Content-Length is put in front if there is none. */
  function Lines(m: Message, keys: seq<seq<byte>>): seq<seq<byte>>
    requires forall k :: k in keys ==> k in m.headers
  {
    [StartLine(m.first)]
    + (if ContentLengthKey() in m.headers then [] else [Field(ContentLengthName(), Decimal(|m.body|))])
    + FieldLines(keys, m.headers)
  }

  function MessageText(m: Message, keys: seq<seq<byte>>): seq<byte>
    requires forall k :: k in keys ==> k in m.headers
  {
    LinesText(Lines(m, keys)) + (Crlf([]) + m.body)
  }

  /** `keys` is an order of the map's keys. */
  ghost predicate Enumerates(keys: seq<seq<byte>>, headers: Headers) {
    forall k :: k in keys <==> k in headers
  }

  // ---- reading -----------------------------------------------------------------------------------------

  /** `std::getline`: the next line and what is left. */
  function NextLine(s: seq<byte>): Option<(seq<byte>, seq<byte>)> {
    if s == [] then None
    else
      var n := IndexOf(s, LF);
      Some((s[..n], if n < |s| then s[n + 1..] else []))
  }

  /** Without the spaces in front, unless there is nothing else. */
  function Stripped(s: seq<byte>): seq<byte> {
    if DropSpaces(s) == [] then s else DropSpaces(s)
  }

  function DropSpaces(s: seq<byte>): (r: seq<byte>)
    ensures |r| <= |s|
  {
    if s != [] && s[0] == SPACE then DropSpaces(s[1..]) else s
  }

  const INT_LIMIT: int := 0x8000_0000

  /** `stream >> int`: the value, whether it was read, and what is left. */
  function ReadInt(s: seq<byte>): (int, bool, seq<byte>) {
    var t := SkipSpace(s);
    var negative := t != [] && t[0] == MINUS;
    var u := if t != [] && (t[0] == MINUS || t[0] == PLUS) then t[1..] else t;
    var k := DigitCount(u);
    var n: int := Number(u[..k]);
    if k == 0 then (0, false, u)
    else if negative then
      if n > INT_LIMIT then (-INT_LIMIT, false, u[k..]) else (-n, true, u[k..])
    else if n >= INT_LIMIT then (INT_LIMIT - 1, false, u[k..])
    else (n, true, u[k..])
  }

  /** The outcome of `Parse`: a message, nullptr, or an exception of the standard library. */
  datatype Outcome = Parsed(message: Message) | Null | Throws

  datatype First = Line(first: FirstLine) | NoLine | FirstThrows

  function ParseFirst(line: seq<byte>): First {
    if Version() <= line then
      if |line| < 8 then FirstThrows
      else
        var (status, ok, rest) := ReadInt(line[8..]);
        Line(Response(status % 65536, if ok then Stripped(rest) else []))
    else
      var (verb, rest) := Word(line);
      var (uri, rest2) := Word(rest);
      var (version, _) := Word(rest2);
      if version != Version() then NoLine else Line(Request(StringToMethod(verb), uri))
  }

  /** `SetHeader`. */
  function Set(headers: Headers, name: seq<byte>, value: seq<byte>): Headers {
    headers[Lower(name) := value]
  }

  function ParseField(headers: Headers, line: seq<byte>): Headers {
    var colon := IndexOf(line, COLON);
    if colon == |line| then headers else Set(headers, line[..colon], Stripped(line[colon + 1..]))
  }

  /** The header fields up to an empty line or the end. */
  function ParseFields(headers: Headers, s: seq<byte>): Headers
    decreases |s|
  {
    match NextLine(s)
    case None => headers
    case Some((line, rest)) =>
      if Chomp(line) == [] then headers else ParseFields(ParseField(headers, Chomp(line)), rest)
  }

  function Blank(): seq<byte> {
    [CR, LF, CR, LF]
  }

  /** Everything after the first empty line of the whole text, if the length says that there is a body. */
  function ParseBody(headers: Headers, raw: seq<byte>): Option<seq<byte>> {
    if ContentLengthKey() !in headers || headers[ContentLengthKey()] == [] then Some([])
    else
      match Stoul(headers[ContentLengthKey()])
      case None => None
      case Some(n) =>
        if n == 0 then Some([])
        else
          match Find(raw, Blank())
          case None => Some([])
          case Some(at) => Some(raw[at + 4..])
  }

  function ParseText(raw: seq<byte>): Outcome {
    match NextLine(raw)
    case None => Null
    case Some((line, rest)) =>
      if line == [] then Null
      else
        match ParseFirst(Chomp(line))
        case NoLine => Null
        case FirstThrows => Throws
        case Line(first) =>
          var headers := ParseFields(map[], rest);
          match ParseBody(headers, raw)
          case None => Throws
          case Some(body) => Parsed(Message(first, headers, body))
  }

  // ---- the class ---------------------------------------------------------------------------------------

  class SipMessage {
    var isRequest: bool
    var verb: Method
    var requestUri: seq<byte>
    var statusCode: nat
    var reasonPhrase: seq<byte>
    var headers: Headers
    var body: seq<byte>

    ghost function Value(): Message
      reads this
    {
      Message(if isRequest then Request(verb, requestUri) else Response(statusCode, reasonPhrase), headers, body)
    }

    constructor (isRequest: bool)
      ensures this.isRequest == isRequest && headers == map[] && body == []
      ensures Value() == Message(if isRequest then Request(UNKNOWN, []) else Response(0, []), map[], [])
    {
      this.isRequest, verb, requestUri, statusCode, reasonPhrase := isRequest, UNKNOWN, [], 0, [];
      headers, body := map[], [];
    }

    /** The value of a header field, whatever the case of its name; empty where there is none. */
    ghost function Header(name: seq<byte>): seq<byte>
      reads this`headers
    {
      if Lower(name) in headers then headers[Lower(name)] else []
    }

    /** The loop that puts a name in lower case. */
    static method LowerName(name: seq<byte>) returns (lower: seq<byte>)
      ensures lower == Lower(name)
    {
      lower := [];
      for i := 0 to |name|
        invariant lower == Lower(name[..i])
      {
        LowerSnoc(name[..i], name[i]);
        assert name[..i + 1] == name[..i] + [name[i]];
        lower := lower + [ToLower(name[i])];
      }
      assert name[..|name|] == name;
    }

    /** Every spelling of the name finds the value afterwards, and every other field keeps its own. */
    method SetHeader(name: seq<byte>, value: seq<byte>)
      modifies this`headers
      ensures headers == Set(old(headers), name, value)
      ensures forall n :: Header(n) == if Lower(n) == Lower(name) then value else old(Header(n))
    {
      var lowerName := LowerName(name);
      headers := headers[lowerName := value];
    }

    method GetHeader(name: seq<byte>) returns (value: seq<byte>)
      ensures value == Header(name)
    {
      var lowerName := LowerName(name);
      value := if lowerName in headers then headers[lowerName] else [];
    }

    method HasHeader(name: seq<byte>) returns (has: bool)
      ensures has <==> Lower(name) in headers
    {
      var lowerName := LowerName(name);
      has := lowerName in headers;
    }

    /** No spelling of the name finds a value afterwards, and every other field keeps its own. */
    method RemoveHeader(name: seq<byte>)
      modifies this`headers
      ensures headers == old(headers) - {Lower(name)}
      ensures forall n :: Header(n) == if Lower(n) == Lower(name) then [] else old(Header(n))
    {
      var lowerName := LowerName(name);
      headers := headers - {lowerName};
    }

    /** `Serialize`; `keys` is the order in which the header map hands out its entries. */
    method Serialize(keys: seq<seq<byte>>) returns (text: seq<byte>)
      requires Enumerates(keys, headers)
      ensures text == MessageText(Value(), keys)
    {
      hide LinesText, Lines, FieldLines, MessageText, Crlf, StartLine, MethodToString, Version, Decimal, Field, ContentLengthName;
      ghost var lines := [StartLine(Value().first)];
      if isRequest {
        text := MethodToString(verb) + [SPACE] + requestUri + [SPACE] + Version() + [CR, LF];
      } else {
        text := Version() + [SPACE] + Decimal(statusCode) + [SPACE] + reasonPhrase + [CR, LF];
      }
      StartLineText(Value().first);
      var hasLength := HasHeader(ContentLengthName());
      if !hasLength {
        ghost var line := Field(ContentLengthName(), Decimal(|body|));
        text := text + (ContentLengthName() + [COLON, SPACE] + Decimal(|body|) + [CR, LF]);
        FieldText(ContentLengthName(), Decimal(|body|));
        LinesTextSnoc(lines, line);
        lines := lines + [line];
      }
      ghost var before := lines;
      assert before == before + FieldLines(keys[..0], headers);
      for i := 0 to |keys|
        invariant lines == before + FieldLines(keys[..i], headers) && text == LinesText(lines)
      {
        var key := keys[i];
        ghost var line := Field(key, headers[key]);
        text := text + (key + [COLON, SPACE] + headers[key] + [CR, LF]);
        FieldText(key, headers[key]);
        LinesTextSnoc(lines, line);
        FieldLinesSnoc(keys, i, headers);
        Associate(before, FieldLines(keys[..i], headers), [line]);
        lines := lines + [line];
      }
      assert keys[..|keys|] == keys;
      ghost var head := text;
      text := text + [CR, LF];
      if body != [] {
        text := text + body;
      }
      TextIs(Value(), keys, before, head, text);
    }

    /** `Parse`: a new message, or nothing; or an exception. */
    static method Parse(raw: seq<byte>) returns (message: SipMessage?, threw: bool)
      ensures message != null ==> fresh(message)
      ensures match ParseText(raw)
              case Null => message == null && !threw
              case Throws => threw
              case Parsed(m) => !threw && message != null && message.Value() == m
    {
      threw, message := false, null;
      var next := NextLine(raw);
      if next.None? || next.value.0 == [] {
        return;
      }
      var line := Chomp(next.value.0);
      var rest := next.value.1;
      if Version() <= line {
        var m := new SipMessage(false);
        if |line| < 8 {
          threw := true;
          return;
        }
        var (statusCode, ok, remaining) := ReadInt(line[8..]);
        m.statusCode := statusCode % 65536;
        if ok {
          m.reasonPhrase := Stripped(remaining);
        }
        message := m;
      } else {
        var (verb, afterVerb) := Word(line);
        var (uri, afterUri) := Word(afterVerb);
        var (sipVersion, _) := Word(afterUri);
        if sipVersion != Version() {
          return;
        }
        var m := new SipMessage(true);
        m.verb := StringToMethod(verb);
        m.requestUri := uri;
        message := m;
      }
      ghost var first := message.Value().first;
      assert ParseFirst(line) == Line(first);
      message.ReadFields(rest);
      threw := message.ReadBody(raw);
    }

    /** The loop over the header fields. */
    method ReadFields(text: seq<byte>)
      modifies this`headers
      ensures headers == ParseFields(old(headers), text)
    {
      var rest := text;
      var next := NextLine(rest);
      while next.Some?
        invariant next == NextLine(rest)
        invariant ParseFields(headers, rest) == ParseFields(old(headers), text)
        decreases |rest|
      {
        var line := Chomp(next.value.0);
        rest := next.value.1;
        if line == [] {
          return;
        }
        var colonPos := IndexOf(line, COLON);
        if colonPos != |line| {
          SetHeader(line[..colonPos], Stripped(line[colonPos + 1..]));
        }
        next := NextLine(rest);
      }
    }

    /** The body, as far as Content-Length asks for one. */
    method ReadBody(raw: seq<byte>) returns (threw: bool)
      requires body == []
      modifies this`body
      ensures match ParseBody(headers, raw)
              case None => threw
              case Some(b) => !threw && body == b
    {
      threw := false;
      var contentLength := GetHeader(ContentLengthName());
      if contentLength != [] {
        var length := Stoul(contentLength);
        if length == None {
          return true;
        }
        if length.value > 0 {
          var remaining := Find(raw, Blank());
          if remaining.Some? {
            body := raw[remaining.value + 4..];
          }
        }
      }
    }
  }

  lemma {:induction false} StartLineText(f: FirstLine)
    ensures var text := if f.Request? then MethodToString(f.verb) + [SPACE] + f.uri + [SPACE] + Version() + [CR, LF]
                        else Version() + [SPACE] + Decimal(f.status) + [SPACE] + f.reason + [CR, LF];
            text == LinesText([StartLine(f)])
  {
    hide MethodToString, Version, Decimal;
    assert [StartLine(f)][1..] == [];
    assert LinesText([StartLine(f)]) == Crlf(StartLine(f)) + [];
  }

  lemma {:induction false} FieldText(name: seq<byte>, value: seq<byte>)
    ensures name + [COLON, SPACE] + value + [CR, LF] == Crlf(Field(name, value))
  {
  }

  lemma {:induction false} LinesTextSnoc(lines: seq<seq<byte>>, line: seq<byte>)
    ensures LinesText(lines + [line]) == LinesText(lines) + Crlf(line)
  {
    if lines == [] {
      assert [line][1..] == [];
      assert LinesText([line]) == Crlf(line) + [];
    } else {
      assert (lines + [line])[1..] == lines[1..] + [line];
      LinesTextSnoc(lines[1..], line);
      Associate(Crlf(lines[0]), LinesText(lines[1..]), Crlf(line));
    }
  }

  lemma {:induction false} TextIs(m: Message, keys: seq<seq<byte>>, before: seq<seq<byte>>, head: seq<byte>, text: seq<byte>)
    requires forall k :: k in keys ==> k in m.headers
    requires before == [StartLine(m.first)]
                       + if ContentLengthKey() in m.headers then [] else [Field(ContentLengthName(), Decimal(|m.body|))]
    requires head == LinesText(before + FieldLines(keys, m.headers))
    requires text == head + [CR, LF] + m.body
    ensures text == MessageText(m, keys)
  {
    hide LinesText, FieldLines, StartLine, Field, Decimal, ContentLengthName;
    assert Crlf([]) == [CR, LF];
    Associate(head, [CR, LF], m.body);
  }

  lemma {:induction false} FieldLinesSnoc(keys: seq<seq<byte>>, i: nat, headers: Headers)
    requires i < |keys| && forall k :: k in keys ==> k in headers
    ensures FieldLines(keys[..i + 1], headers) == FieldLines(keys[..i], headers) + [Field(keys[i], headers[keys[i]])]
    decreases i
  {
    if i == 0 {
      assert keys[..1][1..] == [];
    } else {
      var rest := keys[1..];
      assert keys[..i + 1][1..] == rest[..i] && keys[..i][1..] == rest[..i - 1];
      FieldLinesSnoc(rest, i - 1, headers);
    }
  }

  // ---- messages come back ------------------------------------------------------------------------------

  predicate StartsWithSpace(s: seq<byte>) {
    s != [] && s[0] == SPACE
  }

  /** A value that survives being written behind a space and stripped. */
  predicate Kept(value: seq<byte>) {
    value != [] && !StartsWithSpace(value)
  }

  /** It is exactly the non-empty values that do not start with a space. */
  lemma {:induction false} StrippedBack(value: seq<byte>)
    ensures Stripped([SPACE] + value) == value <==> Kept(value)
  {
    assert ([SPACE] + value)[1..] == value;
    DropSpacesMeans(value);
  }

  lemma {:induction false} DropSpacesMeans(s: seq<byte>)
    ensures DropSpaces(s) == s <==> !StartsWithSpace(s)
    ensures !StartsWithSpace(DropSpaces(s))
  {
    if StartsWithSpace(s) {
      DropSpacesMeans(s[1..]);
    }
  }

  predicate FirstLineFits(f: FirstLine) {
    match f
    case Request(_, uri) => uri != [] && NoSpace(uri)
    case Response(status, reason) => status < 65536 && Kept(reason) && OneLine(reason)
  }

  predicate HeaderFits(name: seq<byte>, value: seq<byte>) {
    Lower(name) == name && COLON !in name && OneLine(name) && OneLine(value) && Kept(value)
  }

  ghost predicate HeadersFit(headers: Headers) {
    forall k :: k in headers ==> HeaderFits(k, headers[k])
  }

  /** An explicit Content-Length is a number, and not 0 if there is a body. */
  predicate LengthFits(m: Message) {
    ContentLengthKey() in m.headers ==>
      match Stoul(m.headers[ContentLengthKey()])
      case None => false
      case Some(n) => n == 0 ==> m.body == []
  }

  /** The message with the Content-Length that is written for it. */
  function WithLength(m: Message): Message {
    if ContentLengthKey() in m.headers then m
    else m.(headers := m.headers[ContentLengthKey() := Decimal(|m.body|)])
  }

  lemma {:induction false} MethodNamesAreWords(verb: Method)
    ensures MethodToString(verb) != [] && NoSpace(MethodToString(verb))
  {
    hide NoSpace, Ascii;
    match verb {
      case REGISTER => VisibleIsWord("REGISTER");
      case INVITE => VisibleIsWord("INVITE");
      case ACK => VisibleIsWord("ACK");
      case BYE => VisibleIsWord("BYE");
      case CANCEL => VisibleIsWord("CANCEL");
      case MESSAGE => VisibleIsWord("MESSAGE");
      case OPTIONS => VisibleIsWord("OPTIONS");
      case SUBSCRIBE => VisibleIsWord("SUBSCRIBE");
      case NOTIFY => VisibleIsWord("NOTIFY");
      case UNKNOWN => VisibleIsWord("UNKNOWN");
    }
  }

  /** No method name starts as the version does. */
  lemma {:induction false} MethodIsNoVersion(verb: Method, rest: seq<byte>)
    ensures !(Version() <= MethodToString(verb) + rest)
  {
    var name := MethodToString(verb);
    assert Ascii("SIP/2.0")[0] == 83 && Ascii("SIP/2.0")[1] == 73;
    assert Ascii("REGISTER")[0] == 82 && Ascii("INVITE")[0] == 73 && Ascii("ACK")[0] == 65 && Ascii("BYE")[0] == 66;
    assert Ascii("CANCEL")[0] == 67 && Ascii("MESSAGE")[0] == 77 && Ascii("OPTIONS")[0] == 79 && Ascii("NOTIFY")[0] == 78;
    assert Ascii("UNKNOWN")[0] == 85 && Ascii("SUBSCRIBE")[1] == 85;
    hide Ascii;
    assert (name + rest)[0] == name[0] && (name + rest)[1] == name[1];
  }

  lemma {:induction false} MethodIsNamed(verb: Method)
    ensures StringToMethod(MethodToString(verb)) == verb
  {
    assert Ascii("REGISTER")[0] == 82 && Ascii("INVITE")[0] == 73 && Ascii("ACK")[0] == 65 && Ascii("BYE")[0] == 66;
    assert Ascii("CANCEL")[0] == 67 && Ascii("MESSAGE")[0] == 77 && Ascii("OPTIONS")[0] == 79 && Ascii("NOTIFY")[0] == 78;
    assert Ascii("UNKNOWN")[0] == 85 && Ascii("SUBSCRIBE")[0] == 83;
    hide Ascii;
  }

  lemma {:induction false} VersionIsWord()
    ensures |Version()| == 7 && NoSpace(Version())
  {
    hide NoSpace, Ascii;
    VisibleIsWord("SIP/2.0");
  }

  /** The first line is read back. */
  lemma {:induction false} FirstLineReadsBack(f: FirstLine)
    requires FirstLineFits(f)
    ensures OneLine(StartLine(f)) && StartLine(f) != [] && ParseFirst(StartLine(f)) == Line(f)
  {
    VersionIsWord();
    if f.Request? {
      MethodNamesAreWords(f.verb);
      MethodIsNamed(f.verb);
      MethodIsNoVersion(f.verb, [SPACE] + f.uri + ([SPACE] + Version()));
      hide MethodToString, StringToMethod, Version, Word, NoSpace, ReadInt;
      WordsTaken(MethodToString(f.verb), f.uri, Version());
    } else {
      hide Version;
      ResponseLineReadsBack(f.status, f.reason);
    }
  }

  lemma {:induction false} ResponseLineReadsBack(status: nat, reason: seq<byte>)
    requires status < 65536 && Kept(reason) && OneLine(reason)
    ensures var line := Words(Version(), Decimal(status), reason);
            OneLine(line) && ParseFirst(line) == Line(Response(status, reason))
  {
    VersionIsWord();
    hide Version, Word;
    var line, rest := Words(Version(), Decimal(status), reason), Decimal(status) + ([SPACE] + reason);
    assert line == Version() + [SPACE] + rest;
    assert line[8..] == rest;
    IntReadsBack(status, [SPACE] + reason);
    StrippedBack(reason);
    DecimalMeans(status);
    DigitsNoLine(Decimal(status));
    assert IsSpace(LF);
    hide ReadInt, Decimal, Stripped;
  }

  lemma {:induction false} DigitsNoLine(digits: seq<byte>)
    requires AllDigits(digits)
    ensures OneLine(digits)
  {
  }

  lemma {:induction false} IntReadsBack(n: nat, rest: seq<byte>)
    requires n < 65536 && (rest == [] || !IsDigit(rest[0]))
    ensures ReadInt(Decimal(n) + rest) == (n, true, rest)
  {
    var d := Decimal(n);
    DecimalMeans(n);
    DigitCountOf(d, rest);
    assert d[0] in d && (d + rest)[0] == d[0] && (d + rest)[..|d|] == d && (d + rest)[|d|..] == rest;
  }

  // ---- header fields ---------------------------------------------------------------------------------------

  /** A field that is written is read back. */
  lemma {:induction false} FieldReadsBack(headers: Headers, name: seq<byte>, value: seq<byte>)
    requires COLON !in name && Kept(value)
    ensures ParseField(headers, Field(name, value)) == Set(headers, name, value)
  {
    FieldParts(name, value);
    StrippedBack(value);
    hide Stripped, Field;
  }

  lemma {:induction false} NextLineOf(line: seq<byte>, rest: seq<byte>)
    requires OneLine(line)
    ensures NextLine(Crlf(line) + rest) == Some((line + [CR], rest)) && Chomp(line + [CR]) == line
  {
    LineTaken(line, rest);
    ChompOf(line);
    var text := Crlf(line) + rest;
    assert text[..|line| + 1] == line + [CR];
  }

  /** Reading on after a field. */
  lemma {:induction false} FieldsStep(headers: Headers, name: seq<byte>, value: seq<byte>, rest: seq<byte>)
    requires COLON !in name && OneLine(name) && OneLine(value) && Kept(value)
    ensures ParseFields(headers, Crlf(Field(name, value)) + rest) == ParseFields(Set(headers, name, value), rest)
  {
    FieldParts(name, value);
    NextLineOf(Field(name, value), rest);
    FieldReadsBack(headers, name, value);
    hide Field, Crlf, ParseField, Set;
  }

  lemma {:induction false} FieldsEnd(headers: Headers, body: seq<byte>)
    ensures ParseFields(headers, Crlf([]) + body) == headers
  {
    NextLineOf([], body);
    hide Crlf;
  }

  /** All fields of a header map, added to those read before. */
  function Added(read: Headers, keys: seq<seq<byte>>, headers: Headers): Headers
    requires forall k :: k in keys ==> k in headers
    decreases |keys|
  {
    if keys == [] then read else Added(read[keys[0] := headers[keys[0]]], keys[1..], headers)
  }

  lemma {:induction false} AddedMeans(read: Headers, keys: seq<seq<byte>>, headers: Headers)
    requires forall k :: k in keys ==> k in headers
    ensures var r := Added(read, keys, headers);
            forall k :: (k in r <==> k in read || k in keys) && (k in r ==> r[k] == if k in keys then headers[k] else read[k])
    decreases |keys|
  {
    if keys != [] {
      AddedMeans(read[keys[0] := headers[keys[0]]], keys[1..], headers);
      assert forall k :: k in keys <==> k == keys[0] || k in keys[1..];
    }
  }

  lemma {:induction false} FieldsReadBack(read: Headers, keys: seq<seq<byte>>, headers: Headers, body: seq<byte>)
    requires (forall k :: k in keys ==> k in headers) && HeadersFit(headers)
    ensures ParseFields(read, LinesText(FieldLines(keys, headers)) + (Crlf([]) + body)) == Added(read, keys, headers)
    decreases |keys|
  {
    hide ParseFields;
    if keys == [] {
      assert LinesText([]) + (Crlf([]) + body) == Crlf([]) + body;
      FieldsEnd(read, body);
    } else {
      var k, rest := keys[0], LinesText(FieldLines(keys[1..], headers)) + (Crlf([]) + body);
      assert HeaderFits(k, headers[k]);
      var lines := FieldLines(keys, headers);
      assert lines[1..] == FieldLines(keys[1..], headers);
      Associate(Crlf(lines[0]), LinesText(lines[1..]), Crlf([]) + body);
      FieldsStep(read, k, headers[k], rest);
      hide Crlf, Field;
      FieldsReadBack(read[k := headers[k]], keys[1..], headers, body);
    }
  }

  // ---- the empty line --------------------------------------------------------------------------------------

  /** The first empty line of a text that starts with a line is behind that line, or further on. */
  lemma {:induction false} BlankAfter(line: seq<byte>, rest: seq<byte>)
    requires OneLine(line) && line != []
    ensures var text := Crlf(line) + rest;
            if [CR, LF] <= rest then Find(text, Blank()) == Some(|line|)
            else Find(text, Blank()) == match Find(rest, Blank()) case None => None case Some(p) => Some(|line| + 2 + p)
  {
    var text := Crlf(line) + rest;
    if [CR, LF] <= rest {
      assert text[|line|..|line| + 4] == Blank();
      hide Find;
      Found(text, Blank(), |line|);
      NoBlankWithin(line, rest, Find(text, Blank()).value);
    } else {
      BlankFurtherOn(line, rest);
    }
  }

  lemma {:induction false} BlankFurtherOn(line: seq<byte>, rest: seq<byte>)
    requires OneLine(line) && line != [] && !([CR, LF] <= rest)
    ensures Find(Crlf(line) + rest, Blank()) == match Find(rest, Blank()) case None => None case Some(p) => Some(|line| + 2 + p)
  {
    hide Find, OccursAt, Crlf, Blank;
    var text := Crlf(line) + rest;
    var p, q := Find(rest, Blank()), Find(text, Blank());
    if p.Some? {
      Found(rest, Blank(), p.value);
      Shifted(line, rest, p.value);
      Found(text, Blank(), |line| + 2 + p.value);
    }
    if q.Some? {
      Found(text, Blank(), q.value);
      NoBlankWithin(line, rest, q.value);
      Shifted(line, rest, q.value - |line| - 2);
      Found(rest, Blank(), q.value - |line| - 2);
    }
  }

  lemma {:induction false} Shifted(line: seq<byte>, rest: seq<byte>, i: nat)
    ensures OccursAt(Crlf(line) + rest, Blank(), |line| + 2 + i) <==> OccursAt(rest, Blank(), i)
  {
    var text := Crlf(line) + rest;
    if i + 4 <= |rest| {
      assert text[|line| + 2 + i..|line| + 2 + i + 4] == rest[i..i + 4];
    }
  }

  /** No empty line is found within a line. */
  lemma {:induction false} NoBlankWithin(line: seq<byte>, rest: seq<byte>, i: nat)
    requires OneLine(line) && OccursAt(Crlf(line) + rest, Blank(), i)
    ensures if [CR, LF] <= rest then i >= |line| else i >= |line| + 2
  {
    var text := Crlf(line) + rest;
    assert text[i..i + 4][0] == text[i] && text[i..i + 4][1] == text[i + 1];
    assert text[i..i + 4][2] == text[i + 2] && text[i..i + 4][3] == text[i + 3];
    assert forall j :: 0 <= j < |line| ==> text[j] == line[j];
    assert forall j :: 0 <= j < |rest| ==> text[|line| + 2 + j] == rest[j];
  }

  /** A text of lines, none of them empty, then an empty line: the empty line is found behind the last. */
  lemma {:induction false} BlankFound(lines: seq<seq<byte>>, body: seq<byte>)
    requires lines != [] && forall l :: l in lines ==> OneLine(l) && l != []
    ensures Find(LinesText(lines) + (Crlf([]) + body), Blank()) == Some(|LinesText(lines)| - 2)
    decreases |lines|
  {
    var line, more := lines[0], lines[1..];
    assert line in lines;
    var rest := LinesText(more) + (Crlf([]) + body);
    Associate(Crlf(line), LinesText(more), Crlf([]) + body);
    hide Find;
    BlankAfter(line, rest);
    if more == [] {
      assert rest == Crlf([]) + body;
      assert rest[..2] == [CR, LF];
    } else {
      assert more[0] in lines;
      BlankFound(more, body);
      NotEmpty(more[0], LinesText(more[1..]) + (Crlf([]) + body));
      Associate(Crlf(more[0]), LinesText(more[1..]), Crlf([]) + body);
    }
  }

  lemma {:induction false} NotEmpty(line: seq<byte>, rest: seq<byte>)
    requires OneLine(line) && line != []
    ensures !([CR, LF] <= Crlf(line) + rest)
  {
    var text := Crlf(line) + rest;
    if |line| > 1 {
      assert text[1] == line[1];
    } else {
      assert text[1] == CR;
    }
  }

  // ---- the whole message -----------------------------------------------------------------------------------

  lemma {:induction false} LengthFieldFits(n: nat)
    ensures HeaderFits(ContentLengthKey(), Decimal(n))
    ensures COLON !in ContentLengthName() && OneLine(ContentLengthName()) && Lower(ContentLengthName()) == ContentLengthKey()
  {
    LengthNameFits();
    LowerFits(ContentLengthName());
    hide ContentLengthName;
    DecimalMeans(n);
    DigitsNoLine(Decimal(n));
    assert Decimal(n)[0] in Decimal(n);
  }

  lemma {:induction false} LengthNameFits()
    ensures COLON !in ContentLengthName() && OneLine(ContentLengthName())
  {
    var s := "Content-Length";
    assert forall i :: 0 <= i < |s| ==> s[i] != ':' && s[i] > ' ' && s[i] < '~';
  }

  lemma {:induction false} LowerFits(s: seq<byte>)
    requires COLON !in s && OneLine(s)
    ensures COLON !in Lower(s) && OneLine(Lower(s)) && Lower(Lower(s)) == Lower(s)
  {
    LowerTwice(s);
    assert forall i :: 0 <= i < |s| ==> s[i] in s;
  }

  lemma {:induction false} FieldLinesFit(keys: seq<seq<byte>>, headers: Headers)
    requires (forall k :: k in keys ==> k in headers) && HeadersFit(headers)
    ensures forall l :: l in FieldLines(keys, headers) ==> OneLine(l) && l != []
    decreases |keys|
  {
    if keys != [] {
      assert HeaderFits(keys[0], headers[keys[0]]);
      FieldParts(keys[0], headers[keys[0]]);
      FieldLinesFit(keys[1..], headers);
    }
  }

  lemma {:induction false} LinesFit(m: Message, keys: seq<seq<byte>>)
    requires FirstLineFits(m.first) && HeadersFit(m.headers) && Enumerates(keys, m.headers)
    ensures forall l :: l in Lines(m, keys) ==> OneLine(l) && l != []
  {
    FirstLineReadsBack(m.first);
    FieldLinesFit(keys, m.headers);
    LengthFieldFits(|m.body|);
    FieldParts(ContentLengthName(), Decimal(|m.body|));
    hide StartLine, Field, FieldLines, ContentLengthName, Decimal, HeaderFits;
  }

  lemma {:induction false} AllAdded(m: Message, keys: seq<seq<byte>>)
    requires Enumerates(keys, m.headers)
    ensures var read: Headers := if ContentLengthKey() in m.headers then map[] else map[ContentLengthKey() := Decimal(|m.body|)];
            Added(read, keys, m.headers) == WithLength(m).headers
  {
    hide Decimal, ContentLengthKey;
    var read: Headers := if ContentLengthKey() in m.headers then map[] else map[ContentLengthKey() := Decimal(|m.body|)];
    AddedMeans(read, keys, m.headers);
    hide Added;
  }

  lemma {:induction false} OwnLengthRead(body: seq<byte>, fields: seq<seq<byte>>, tail: seq<byte>)
    ensures ParseFields(map[], LinesText([Field(ContentLengthName(), Decimal(|body|))] + fields) + tail)
         == ParseFields(map[ContentLengthKey() := Decimal(|body|)], LinesText(fields) + tail)
  {
    var line, value := Field(ContentLengthName(), Decimal(|body|)), Decimal(|body|);
    LengthFieldFits(|body|);
    hide ParseFields, Decimal, ContentLengthName, ContentLengthKey, Field, Crlf;
    assert ([line] + fields)[1..] == fields;
    Associate(Crlf(line), LinesText(fields), tail);
    FieldsStep(map[], ContentLengthName(), value, LinesText(fields) + tail);
  }

  /** The header map is read back, with the Content-Length. */
  lemma {:induction false} LinesAfterFirst(m: Message, keys: seq<seq<byte>>)
    requires HeadersFit(m.headers) && Enumerates(keys, m.headers)
    ensures Lines(m, keys) != []
    ensures Lines(m, keys)[1..] ==
            (if ContentLengthKey() in m.headers then [] else [Field(ContentLengthName(), Decimal(|m.body|))]) + FieldLines(keys, m.headers)
  {
    hide HeadersFit, Field, Decimal, ContentLengthName, ContentLengthKey, FieldLines;
  }

  lemma {:induction false} HeadersReadBack(m: Message, keys: seq<seq<byte>>)
    requires HeadersFit(m.headers) && Enumerates(keys, m.headers)
    ensures ParseFields(map[], LinesText(Lines(m, keys)[1..]) + (Crlf([]) + m.body)) == WithLength(m).headers
  {
    hide ParseFields, Decimal, ContentLengthName, ContentLengthKey, FieldLines, Field, LinesText, Added, Lines, WithLength, HeadersFit, Crlf;
    var fields, tail := FieldLines(keys, m.headers), Crlf([]) + m.body;
    AllAdded(m, keys);
    OwnLengthRead(m.body, fields, tail);
    LinesAfterFirst(m, keys);
    var read: Headers := if ContentLengthKey() in m.headers then map[] else map[ContentLengthKey() := Decimal(|m.body|)];
    FieldsReadBack(read, keys, m.headers, m.body);
    assert [] + fields == fields;
  }

  lemma {:induction false} BodyReadsBack(m: Message, keys: seq<seq<byte>>)
    requires FirstLineFits(m.first) && HeadersFit(m.headers) && Enumerates(keys, m.headers) && |m.body| < SIZE_LIMIT
    ensures ParseBody(WithLength(m).headers, MessageText(m, keys)) == Some(m.body) <==> LengthFits(m)
  {
    var raw, head, n := MessageText(m, keys), LinesText(Lines(m, keys)), WithLength(m).headers[ContentLengthKey()];
    LinesFit(m, keys);
    BlankFound(Lines(m, keys), m.body);
    assert raw[|head| + 2..] == m.body;
    LengthFieldFits(|m.body|);
    if ContentLengthKey() in m.headers {
      assert HeaderFits(ContentLengthKey(), n);
    } else {
      StoulOfDecimal(|m.body|, []);
      assert n + [] == n;
    }
    hide Lines, LinesText, Stoul, Decimal, ContentLengthName, Find, MessageText, HeaderFits;
    assert n != [];
  }

  /** A message comes back from its text - first line, headers with the Content-Length, body - exactly if a
    * Content-Length of its own is a number, and not 0 if there is a body. This is for messages whose first line and
    * header fields can stand in a text, and whatever the order of the header map. */
  lemma {:induction false} MessageRoundTrip(m: Message, keys: seq<seq<byte>>)
    requires FirstLineFits(m.first) && HeadersFit(m.headers) && Enumerates(keys, m.headers) && |m.body| < SIZE_LIMIT
    ensures ParseText(MessageText(m, keys)) == Parsed(WithLength(m)) <==> LengthFits(m)
  {
    var raw, line := MessageText(m, keys), StartLine(m.first);
    var rest := LinesText(Lines(m, keys)[1..]) + (Crlf([]) + m.body);
    assert Lines(m, keys)[0] == line;
    Associate(Crlf(line), LinesText(Lines(m, keys)[1..]), Crlf([]) + m.body);
    assert raw == Crlf(line) + rest;
    FirstLineReadsBack(m.first);
    NextLineOf(line, rest);
    HeadersReadBack(m, keys);
    BodyReadsBack(m, keys);
    hide StartLine, Lines, LinesText, ParseFirst, ParseFields, ParseBody, MessageText, LengthFits, NextLine, Crlf;
  }
}
