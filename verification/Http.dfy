/** The request parser of src/server/http/http_parser.cpp, fed piece by piece. */
module Http {
  import opened Bytes
  import opened Incremental
  import opened Text

  // ---- requests ----------------------------------------------------------------------------------------

  datatype Method = GET | POST | PUT | DELETE | HEAD | OPTIONS | PATCH | UNKNOWN

  datatype Request = Request(verb: Method, uri: seq<byte>, version: seq<byte>,
                             headers: map<seq<byte>, seq<byte>>, body: seq<byte>)

  const EMPTY: Request := Request(UNKNOWN, [], [], map[], [])

  function MethodName(m: Method): seq<byte> {
    match m
    case GET => Ascii("GET")
    case POST => Ascii("POST")
    case PUT => Ascii("PUT")
    case DELETE => Ascii("DELETE")
    case HEAD => Ascii("HEAD")
    case OPTIONS => Ascii("OPTIONS")
    case PATCH => Ascii("PATCH")
    case UNKNOWN => []
  }

  function MethodOf(name: seq<byte>): Method {
    if name == Ascii("GET") then GET
    else if name == Ascii("POST") then POST
    else if name == Ascii("PUT") then PUT
    else if name == Ascii("DELETE") then DELETE
    else if name == Ascii("HEAD") then HEAD
    else if name == Ascii("OPTIONS") then OPTIONS
    else if name == Ascii("PATCH") then PATCH
    else UNKNOWN
  }

  predicate IsVersion(version: seq<byte>) {
    version == Ascii("HTTP/1.0") || version == Ascii("HTTP/1.1")
  }

  function ContentLength(): seq<byte> {
    Ascii("content-length")
  }

  // ---- one step ----------------------------------------------------------------------------------------

  /** Where the parser is: before the request line, in the headers, in the body, or at an end. `Aborted` is the
    * exception of `std::stoul` for a Content-Length that is no number. */
  datatype State =
    | RequestLine
    | Headers(req: Request)
    | Body(req: Request)
    | Done(req: Request)
    | Failed(req: Request)
    | Aborted(req: Request)

  /** What a request line makes of the parser. */
  function AfterRequestLine(line: seq<byte>): State {
    var (name, rest) := Word(line);
    var (uri, rest2) := Word(rest);
    var (version, _) := Word(rest2);
    if name == [] || uri == [] || version == [] then Failed(EMPTY)
    else
      var req := Request(MethodOf(name), uri, version, map[], []);
      if IsVersion(version) then Headers(req) else Failed(req)
  }

  /** What a line among the headers does. */
  function AfterHeaderLine(req: Request, line: seq<byte>): State {
    if line == [] then Body(req)
    else
      var colon := IndexOf(line, COLON);
      if colon == |line| then Failed(req)
      else Headers(req.(headers := req.headers[Lower(line[..colon]) := SkipSpace(line[colon + 1..])]))
  }

  /** What the body section does with the bytes there are; it waits where it returns None. */
  function AfterBody(req: Request, buf: seq<byte>): Option<State> {
    if ContentLength() !in req.headers then Some(Done(req))
    else
      match Stoul(req.headers[ContentLength()])
      case None => Some(Aborted(req))
      case Some(n) => if |buf| < n then None else Some(Done(req.(body := buf[..n])))
  }

  function HttpStep(s: State, buf: seq<byte>): Step<State, ()> {
    match s
    case RequestLine =>
      var n := IndexOf(buf, LF);
      if n == |buf| then More
      else
        var t := AfterRequestLine(Chomp(buf[..n]));
        if t.Failed? then Halt(t, []) else Took(t, n + 1, [])
    case Headers(req) =>
      var n := IndexOf(buf, LF);
      if n == |buf| then More
      else
        var t := AfterHeaderLine(req, Chomp(buf[..n]));
        if t.Failed? then Halt(t, []) else Took(t, n + 1, [])
    case Body(req) =>
      (match AfterBody(req, buf)
       case None => More
       case Some(t) => Halt(t, []))
    case _ => Halt(s, [])
  }

  lemma {:induction false} HttpStepStable()
    ensures Stable(HttpStep)
  {
    forall s, a: seq<byte>, b: seq<byte> | !HttpStep(s, a).More? ensures HttpStep(s, a + b) == HttpStep(s, a) {
      if s.RequestLine? || s.Headers? {
        IndexOfStable(a, b, LF);
        SliceOfPrefix(a, b, 0, IndexOf(a, LF));
      } else if s.Body? && ContentLength() in s.req.headers {
        var n := Stoul(s.req.headers[ContentLength()]);
        if n.Some? {
          SliceOfPrefix(a, b, 0, n.value);
        }
      }
    }
  }

  /** Reading on after a line. */
  lemma {:induction false} LineStep(s: State, buf: seq<byte>)
    requires s.RequestLine? || s.Headers?
    ensures var n := IndexOf(buf, LF);
            Drain(HttpStep, s, buf) ==
            if n == |buf| then Reader(s, buf, [], false)
            else
              var t := if s.RequestLine? then AfterRequestLine(Chomp(buf[..n])) else AfterHeaderLine(s.req, Chomp(buf[..n]));
              if t.Failed? then Reader(t, buf, [], true) else Drain(HttpStep, t, buf[n + 1..])
  {
    hide AfterRequestLine, AfterHeaderLine, IndexOf, Chomp;
    var st := HttpStep(s, buf);
    if st.Took? {
      var d := Drain(HttpStep, st.next, buf[st.count..]);
      assert [] + d.out == d.out;
    }
  }

  lemma {:induction false} BodyStep(req: Request, buf: seq<byte>)
    ensures Drain(HttpStep, Body(req), buf) ==
            match AfterBody(req, buf)
            case None => Reader(Body(req), buf, [], false)
            case Some(t) => Reader(t, buf, [], true)
  {
  }

  /** How many bytes of the leftover `feed` counts as consumed at an end: those of the body, or the bad line. */
  function Counted(s: State, rest: seq<byte>): nat {
    match s
    case Done(req) => if ContentLength() in req.headers then |req.body| else 0
    case Failed(_) => IndexOf(rest, LF) + 1
    case _ => 0
  }

  // ---- the parser --------------------------------------------------------------------------------------

  datatype ParseState = AT_METHOD | AT_HEADERS | AT_BODY | AT_DONE | AT_ERROR

  class Parser {
    var state: ParseState
    var req: Request
    var buffer: seq<byte>

    ghost function Value(): State
      reads this
    {
      match state
      case AT_METHOD => RequestLine
      case AT_HEADERS => Headers(req)
      case AT_BODY => Body(req)
      case AT_DONE => Done(req)
      case AT_ERROR => Failed(req)
    }

    predicate Finished()
      reads this
    {
      state == AT_DONE || state == AT_ERROR
    }

    constructor ()
      ensures Value() == RequestLine && buffer == [] && req == EMPTY
    {
      state, req, buffer := AT_METHOD, EMPTY, [];
    }

    /** `feed`. An exception leaves it with `threw`. What is consumed leaves the buffer, but for an error. */
    method Feed(data: seq<byte>) returns (consumed: nat, threw: bool)
      requires state == AT_METHOD ==> req == EMPTY
      modifies this
      ensures old(Finished()) ==> !threw && consumed == 0 && Value() == old(Value()) && buffer == old(buffer)
      ensures !old(Finished()) ==>
                var whole := old(buffer) + data;
                var d := Drain(HttpStep, old(Value()), whole);
                && (threw ==> d.state == Aborted(req) && d.halted && buffer == whole)
                && (!threw ==>
                      && Value() == d.state && (Finished() <==> d.halted)
                      && consumed == |whole| - |d.rest| + Counted(d.state, d.rest)
                      && (if state == AT_ERROR then buffer == whole else consumed <= |whole| && buffer == whole[consumed..])
                      && (!d.halted ==> buffer == d.rest))
      ensures state == AT_METHOD ==> req == EMPTY
    {
      if state == AT_DONE || state == AT_ERROR {
        return 0, false;
      }
      buffer := buffer + data;
      consumed, threw := Consume();
    }

    /** The three sections of `feed`, on all there is in the buffer. */
    method Consume() returns (consumed: nat, threw: bool)
      requires !Finished() && (state == AT_METHOD ==> req == EMPTY)
      modifies this
      ensures var d := Drain(HttpStep, old(Value()), old(buffer));
              && (threw ==> d.state == Aborted(req) && d.halted && buffer == old(buffer))
              && (!threw ==>
                    && Value() == d.state && (Finished() <==> d.halted)
                    && consumed == |old(buffer)| - |d.rest| + Counted(d.state, d.rest)
                    && (if state == AT_ERROR then buffer == old(buffer) else consumed <= |old(buffer)| && buffer == old(buffer)[consumed..])
                    && (!d.halted ==> buffer == d.rest))
      ensures state == AT_METHOD ==> req == EMPTY
    {
      hide Drain, HttpStep, IndexOf, ContentLength;
      consumed, threw := 0, false;
      assert buffer[0..] == buffer;
      var more := true;
      if state == AT_METHOD {
        consumed, more := TakeRequestLine();
      }
      if more && state == AT_HEADERS {
        consumed, more := TakeHeaders(consumed);
        if !more && state == AT_HEADERS {
          buffer := buffer[consumed..];
        }
      }
      if more && state == AT_BODY {
        consumed, threw := TakeBody(consumed);
        if !threw {
          buffer := buffer[consumed..];
        }
      }
    }

    /** The request line, if it is complete; `more` if the headers come next. */
    method TakeRequestLine() returns (consumed: nat, more: bool)
      requires state == AT_METHOD && req == EMPTY
      modifies this`state, this`req
      ensures more ==> state == AT_HEADERS && consumed <= |buffer|
      ensures more ==> Drain(HttpStep, RequestLine, buffer) == Drain(HttpStep, Value(), buffer[consumed..])
      ensures !more ==> Drain(HttpStep, RequestLine, buffer) == Reader(Value(), buffer, [], state == AT_ERROR)
      ensures !more && state == AT_ERROR ==> consumed == IndexOf(buffer, LF) + 1
      ensures !more && state != AT_ERROR ==> state == AT_METHOD && req == EMPTY && consumed == 0
    {
      hide Drain, HttpStep, AfterRequestLine;
      LineStep(RequestLine, buffer);
      var n := IndexOf(buffer, LF);
      if n == |buffer| {
        return 0, false;
      }
      ParseRequestLine(Chomp(buffer[..n]));
      return n + 1, state == AT_HEADERS;
    }

    /** The header lines there are; `more` if the body comes next. */
    method TakeHeaders(from: nat) returns (consumed: nat, more: bool)
      requires state == AT_HEADERS && from <= |buffer|
      modifies this`state, this`req
      ensures from <= consumed <= |buffer|
      ensures more ==> state == AT_BODY
      ensures more ==> Drain(HttpStep, old(Value()), buffer[from..]) == Drain(HttpStep, Value(), buffer[consumed..])
      ensures !more ==>
                var d := Drain(HttpStep, old(Value()), buffer[from..]);
                && d.state == Value() && d.halted == (state == AT_ERROR)
                && (if state == AT_ERROR then consumed == |buffer| - |d.rest| + IndexOf(d.rest, LF) + 1
                    else state == AT_HEADERS && d.rest == buffer[consumed..])
    {
      hide Drain, HttpStep, AfterHeaderLine;
      consumed := from;
      while true
        invariant from <= consumed <= |buffer| && state == AT_HEADERS
        invariant Drain(HttpStep, Headers(req), buffer[consumed..]) == Drain(HttpStep, old(Value()), buffer[from..])
        decreases |buffer| - consumed
      {
        var view := buffer[consumed..];
        LineStep(Headers(req), view);
        var n := IndexOf(view, LF);
        if n == |view| {
          return consumed, false;
        }
        var line := Chomp(view[..n]);
        assert view[n + 1..] == buffer[consumed + n + 1..];
        consumed := consumed + n + 1;
        if line == [] {
          EmptyLine(req);
          state := AT_BODY;
          return consumed, true;
        }
        ParseHeaderLine(line);
        if state == AT_ERROR {
          return consumed, false;
        }
      }
    }

    /** The body, if it is complete. */
    method TakeBody(from: nat) returns (consumed: nat, threw: bool)
      requires state == AT_BODY && from <= |buffer|
      modifies this`state, this`req
      ensures from <= consumed <= |buffer|
      ensures consumed == from + if state == AT_DONE && ContentLength() in req.headers then |req.body| else 0
      ensures var d := Drain(HttpStep, old(Value()), buffer[from..]);
              && d.rest == buffer[from..]
              && (threw ==> d.state == Aborted(req) && d.halted && state == AT_BODY)
              && (!threw ==> d.state == Value() && d.halted == (state == AT_DONE))
              && (!threw && state != AT_DONE ==> state == AT_BODY)
    {
      hide Drain, HttpStep;
      BodyStep(req, buffer[from..]);
      consumed, threw := from, false;
      if ContentLength() in req.headers {
        var contentLength := Stoul(req.headers[ContentLength()]);
        if contentLength == None {
          return consumed, true;
        }
        var view := buffer[consumed..];
        if |view| < contentLength.value {
          return;
        }
        req := req.(body := view[..contentLength.value]);
        consumed := consumed + contentLength.value;
      }
      state := AT_DONE;
    }

    method ParseRequestLine(line: seq<byte>)
      requires state == AT_METHOD && req == EMPTY
      modifies this`state, this`req
      ensures Value() == AfterRequestLine(line)
      ensures state == AT_HEADERS || state == AT_ERROR
    {
      var (name, rest) := Word(line);
      var (uri, rest2) := Word(rest);
      var (version, _) := Word(rest2);
      if name == [] || uri == [] || version == [] {
        state := AT_ERROR;
        return;
      }
      req := req.(verb := MethodOf(name), uri := uri, version := version);
      if !IsVersion(version) {
        state := AT_ERROR;
        return;
      }
      state := AT_HEADERS;
    }

    method ParseHeaderLine(line: seq<byte>)
      requires state == AT_HEADERS && line != []
      modifies this`state, this`req
      ensures Value() == AfterHeaderLine(old(req), line)
      ensures state == AT_HEADERS || state == AT_ERROR
    {
      var colon := IndexOf(line, COLON);
      if colon == |line| {
        state := AT_ERROR;
        return;
      }
      var key := line[..colon];
      var value := SkipSpace(line[colon + 1..]);
      key := Lower(key);
      req := req.(headers := req.headers[key := value]);
    }
  }

  lemma {:induction false} EmptyLine(req: Request)
    ensures AfterHeaderLine(req, []) == Body(req)
  {
  }

  // ---- whole streams -----------------------------------------------------------------------------------

  /** The way a stream is cut changes neither the final state nor the request parsed. */
  lemma {:induction false} CutsDontMatter(xs: seq<seq<byte>>, ys: seq<seq<byte>>)
    requires Flat(xs) == Flat(ys)
    ensures FeedAll(HttpStep, Start(RequestLine), xs) == FeedAll(HttpStep, Start(RequestLine), ys)
    ensures FeedAll(HttpStep, Start(RequestLine), xs) == Drain(HttpStep, RequestLine, Flat(xs))
  {
    HttpStepStable();
    ChunkingUnobservable(HttpStep, RequestLine, xs, ys);
  }

  /** A parser fed piece by piece ends where one `feed` of the whole stream would. */
  method ParseChunks(chunks: seq<seq<byte>>) returns (result: State)
    ensures result == Drain(HttpStep, RequestLine, Flat(chunks)).state
  {
    var parser := new Parser();
    ghost var r := Start<State, ()>(RequestLine);
    CutsDontMatter(chunks, chunks);
    hide Drain, HttpStep, FeedAll, Flat;
    ghost var all := FeedAll(HttpStep, r, chunks);
    assert chunks[0..] == chunks;
    for i := 0 to |chunks|
      invariant fresh(parser) && (parser.state == AT_METHOD ==> parser.req == EMPTY)
      invariant FeedAll(HttpStep, r, chunks[i..]) == all
      invariant r.state == parser.Value() && (r.halted <==> parser.Finished()) && (!r.halted ==> r.rest == parser.buffer)
    {
      OneMore(r, chunks, i);
      ghost var next := Incremental.Feed(HttpStep, r, chunks[i]);
      var _, threw := parser.Feed(chunks[i]);
      if threw {
        StaysHalted(next, chunks[i + 1..]);
        return Aborted(parser.req);
      }
      r := next;
    }
    NoneLeft(r, chunks);
    match parser.state {
      case AT_METHOD => return RequestLine;
      case AT_HEADERS => return Headers(parser.req);
      case AT_BODY => return Body(parser.req);
      case AT_DONE => return Done(parser.req);
      case AT_ERROR => return Failed(parser.req);
    }
  }

  lemma {:induction false} OneMore(r: Reader<State, ()>, chunks: seq<seq<byte>>, i: nat)
    requires i < |chunks|
    ensures FeedAll(HttpStep, r, chunks[i..]) == FeedAll(HttpStep, Incremental.Feed(HttpStep, r, chunks[i]), chunks[i + 1..])
  {
    assert chunks[i..][0] == chunks[i] && chunks[i..][1..] == chunks[i + 1..];
  }

  lemma {:induction false} NoneLeft(r: Reader<State, ()>, chunks: seq<seq<byte>>)
    ensures FeedAll(HttpStep, r, chunks[|chunks|..]) == r
  {
  }

  lemma {:induction false} StaysHalted(r: Reader<State, ()>, chunks: seq<seq<byte>>)
    requires r.halted
    ensures FeedAll(HttpStep, r, chunks).state == r.state
    decreases |chunks|
  {
    if chunks != [] {
      StaysHalted(Incremental.Feed(HttpStep, r, chunks[0]), chunks[1..]);
    }
  }

  // ---- requests as they are written ----------------------------------------------------------------------

  /** A header field as a client writes it. */
  datatype Header = Header(name: seq<byte>, value: seq<byte>) {
    predicate Valid() {
      OneLine(name) && OneLine(value) && COLON !in name
    }
  }

  function HeaderLines(hs: seq<Header>): seq<byte> {
    if hs == [] then [] else Crlf(Field(hs[0].name, hs[0].value)) + HeaderLines(hs[1..])
  }

  /** The map the parser builds: names in lower case, values without white space in front, the last one counts. */
  function Collected(m: map<seq<byte>, seq<byte>>, hs: seq<Header>): map<seq<byte>, seq<byte>>
    decreases |hs|
  {
    if hs == [] then m else Collected(m[Lower(hs[0].name) := SkipSpace(hs[0].value)], hs[1..])
  }

  function RequestText(verb: Method, uri: seq<byte>, version: seq<byte>, hs: seq<Header>, body: seq<byte>): seq<byte> {
    Crlf(Words(MethodName(verb), uri, version)) + (HeaderLines(hs) + (Crlf([]) + body))
  }

  lemma {:induction false} NamesAreWords(verb: Method)
    requires verb != UNKNOWN
    ensures MethodName(verb) != [] && NoSpace(MethodName(verb))
  {
    hide Ascii, NoSpace;
    match verb {
      case GET => VisibleIsWord("GET");
      case POST => VisibleIsWord("POST");
      case PUT => VisibleIsWord("PUT");
      case DELETE => VisibleIsWord("DELETE");
      case HEAD => VisibleIsWord("HEAD");
      case OPTIONS => VisibleIsWord("OPTIONS");
      case PATCH => VisibleIsWord("PATCH");
    }
  }

  lemma {:induction false} NamesDiffer()
    ensures Ascii("GET") != Ascii("PUT")
    ensures Ascii("POST") != Ascii("HEAD")
    ensures Ascii("GET")[0] == 71 && Ascii("PUT")[0] == 80 && Ascii("POST")[0] == 80 && Ascii("HEAD")[0] == 72
  {
    assert Ascii("GET")[0] == 71 && Ascii("PUT")[0] == 80 && Ascii("POST")[0] == 80 && Ascii("HEAD")[0] == 72;
  }

  lemma {:induction false} MethodIsNamed(verb: Method)
    requires verb != UNKNOWN
    ensures MethodOf(MethodName(verb)) == verb
  {
    NamesDiffer();
    assert |Ascii("GET")| == 3 && |Ascii("PUT")| == 3 && |Ascii("POST")| == 4 && |Ascii("HEAD")| == 4;
    assert |Ascii("PATCH")| == 5 && |Ascii("DELETE")| == 6 && |Ascii("OPTIONS")| == 7;
    hide Ascii;
  }

  lemma {:induction false} VersionsAreWords(version: seq<byte>)
    requires IsVersion(version)
    ensures version != [] && NoSpace(version)
  {
    hide Ascii, NoSpace;
    VisibleIsWord("HTTP/1.0");
    VisibleIsWord("HTTP/1.1");
  }

  lemma {:induction false} RequestLineRead(verb: Method, uri: seq<byte>, version: seq<byte>)
    requires verb != UNKNOWN && uri != [] && NoSpace(uri) && IsVersion(version)
    ensures var line := Words(MethodName(verb), uri, version);
            && OneLine(line)
            && AfterRequestLine(line) == Headers(Request(verb, uri, version, map[], []))
  {
    NamesAreWords(verb);
    MethodIsNamed(verb);
    VersionsAreWords(version);
    hide MethodName, MethodOf, IsVersion, Word, Words, Ascii, NoSpace;
    WordsTaken(MethodName(verb), uri, version);
  }

  lemma {:induction false} FieldRead(req: Request, h: Header)
    requires h.Valid()
    ensures AfterHeaderLine(req, Field(h.name, h.value)) ==
            Headers(req.(headers := req.headers[Lower(h.name) := SkipSpace(h.value)]))
  {
    FieldParts(h.name, h.value);
    assert ([SPACE] + h.value)[1..] == h.value;
  }

  lemma {:induction false} HeadersRead(req: Request, hs: seq<Header>, rest: seq<byte>)
    requires forall h :: h in hs ==> h.Valid()
    ensures Drain(HttpStep, Headers(req), HeaderLines(hs) + (Crlf([]) + rest)) ==
            Drain(HttpStep, Body(req.(headers := Collected(req.headers, hs))), rest)
    decreases |hs|
  {
    hide Drain, HttpStep, Lower, SkipSpace, NoSpace;
    if hs == [] {
      assert HeaderLines(hs) + (Crlf([]) + rest) == Crlf([]) + rest;
      LineTaken([], rest);
      EmptyLine(req);
      LineStep(Headers(req), Crlf([]) + rest);
    } else {
      var h, more := hs[0], HeaderLines(hs[1..]) + (Crlf([]) + rest);
      assert h in hs;
      var line := Field(h.name, h.value);
      FieldParts(h.name, h.value);
      Associate(Crlf(line), HeaderLines(hs[1..]), Crlf([]) + rest);
      LineTaken(line, more);
      FieldRead(req, h);
      LineStep(Headers(req), Crlf(line) + more);
      hide Field, Crlf, AfterHeaderLine, HeaderLines;
      HeadersRead(req.(headers := req.headers[Lower(h.name) := SkipSpace(h.value)]), hs[1..], rest);
    }
  }

  /** The body has the length that the headers say. */
  predicate LengthFits(headers: map<seq<byte>, seq<byte>>, body: seq<byte>) {
    if ContentLength() in headers then Stoul(headers[ContentLength()]) == Some(|body|) else body == []
  }

  lemma {:induction false} RequestDrained(verb: Method, uri: seq<byte>, version: seq<byte>, hs: seq<Header>, body: seq<byte>, rest: seq<byte>)
    requires verb != UNKNOWN && uri != [] && NoSpace(uri) && IsVersion(version) && forall h :: h in hs ==> h.Valid()
    requires LengthFits(Collected(map[], hs), body)
    ensures Drain(HttpStep, RequestLine, RequestText(verb, uri, version, hs, body) + rest).state ==
            Done(Request(verb, uri, version, Collected(map[], hs), body))
    ensures Drain(HttpStep, RequestLine, RequestText(verb, uri, version, hs, body) + rest).rest == body + rest
  {
    var line := Words(MethodName(verb), uri, version);
    var req := Request(verb, uri, version, map[], []);
    RequestLineRead(verb, uri, version);
    hide Drain, HttpStep, AfterRequestLine, Collected, LengthFits, Stoul, HeaderLines, Crlf, NoSpace, IsVersion, MethodName;
    var more := HeaderLines(hs) + (Crlf([]) + (body + rest));
    TextParts(Crlf(line), HeaderLines(hs), Crlf([]), body, rest);
    LineTaken(line, more);
    LineStep(RequestLine, Crlf(line) + more);
    HeadersRead(req, hs, body + rest);
    BodyDrained(req.(headers := Collected(map[], hs)), body, rest);
  }

  lemma {:induction false} TextParts<T>(line: seq<T>, headers: seq<T>, empty: seq<T>, body: seq<T>, rest: seq<T>)
    ensures line + (headers + (empty + body)) + rest == line + (headers + (empty + (body + rest)))
  {
  }

  lemma {:induction false} BodyDrained(req: Request, body: seq<byte>, rest: seq<byte>)
    requires LengthFits(req.headers, body) && req.body == []
    ensures Drain(HttpStep, Body(req), body + rest).state == Done(req.(body := body))
    ensures Drain(HttpStep, Body(req), body + rest).rest == body + rest
  {
    hide Drain, HttpStep, Stoul, ContentLength;
    BodyStep(req, body + rest);
    assert (body + rest)[..|body|] == body;
  }

  /** A request as the protocol writes it, cut into pieces anywhere and with anything behind it, is parsed into
    * its parts. */
  lemma {:induction false} RequestIsParsed(verb: Method, uri: seq<byte>, version: seq<byte>, hs: seq<Header>, body: seq<byte>,
                                           rest: seq<byte>, chunks: seq<seq<byte>>)
    requires verb != UNKNOWN && uri != [] && NoSpace(uri) && IsVersion(version) && forall h :: h in hs ==> h.Valid()
    requires LengthFits(Collected(map[], hs), body)
    requires Flat(chunks) == RequestText(verb, uri, version, hs, body) + rest
    ensures FeedAll(HttpStep, Start(RequestLine), chunks).state ==
            Done(Request(verb, uri, version, Collected(map[], hs), body))
  {
    CutsDontMatter(chunks, chunks);
    RequestDrained(verb, uri, version, hs, body, rest);
  }
}
