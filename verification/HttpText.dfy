/**
  * What requests look like on the wire and when they are refused: the parser of src/server/http/http_parser.cpp
  * against the request format of sections 3 and 5 of RFC 7230, letter by letter.
  */
module HttpText {
  import opened Bytes
  import opened Http
  import opened Incremental
  import opened Text

  // ---- spelling ------------------------------------------------------------------------------------------

  /** The methods as they are spelled; any other word is an unknown method. */
  lemma {:induction false} MethodsAreSpelled(word: seq<byte>)
    ensures MethodOf(word) == GET <==> word == [71, 69, 84]
    ensures MethodOf(word) == POST <==> word == [80, 79, 83, 84]
    ensures MethodOf(word) == PUT <==> word == [80, 85, 84]
    ensures MethodOf(word) == DELETE <==> word == [68, 69, 76, 69, 84, 69]
    ensures MethodOf(word) == HEAD <==> word == [72, 69, 65, 68]
    ensures MethodOf(word) == OPTIONS <==> word == [79, 80, 84, 73, 79, 78, 83]
    ensures MethodOf(word) == PATCH <==> word == [80, 65, 84, 67, 72]
  {
    assert Ascii("GET") == [71, 69, 84];
    assert Ascii("POST") == [80, 79, 83, 84];
    assert Ascii("PUT") == [80, 85, 84];
    assert Ascii("DELETE") == [68, 69, 76, 69, 84, 69];
    assert Ascii("HEAD") == [72, 69, 65, 68];
    assert Ascii("OPTIONS") == [79, 80, 84, 73, 79, 78, 83];
    assert Ascii("PATCH") == [80, 65, 84, 67, 72];
    hide Ascii;
  }

  lemma {:induction false} VersionsAreSpelled(word: seq<byte>)
    ensures IsVersion(word) <==> word == [72, 84, 84, 80, 47, 49, 46, 48] || word == [72, 84, 84, 80, 47, 49, 46, 49]
  {
    assert Ascii("HTTP/1.0") == [72, 84, 84, 80, 47, 49, 46, 48];
    assert Ascii("HTTP/1.1") == [72, 84, 84, 80, 47, 49, 46, 49];
    hide Ascii;
  }

  lemma {:induction false} LengthIsSpelled()
    ensures ContentLength() == [99, 111, 110, 116, 101, 110, 116, 45, 108, 101, 110, 103, 116, 104]
  {
  }

  /** A request as it is written. */
  lemma {:induction false} RequestIsWritten()
    ensures RequestText(POST, Ascii("/a"), Ascii("HTTP/1.1"), [Header(Ascii("Host"), Ascii("b"))], Ascii("hi")) ==
            Ascii("POST /a HTTP/1.1\r\n") + (Ascii("Host: b\r\n") + (Ascii("\r\n") + Ascii("hi")))
  {
    FirstLineIsWritten();
    var host := Header(Ascii("Host"), Ascii("b"));
    assert Crlf(Field(host.name, host.value)) == Ascii("Host: b\r\n");
    hide Field, Words, MethodName;
    assert HeaderLines([host]) == Crlf(Field(host.name, host.value)) + [];
    assert Crlf([]) == Ascii("\r\n");
  }

  lemma {:induction false} FirstLineIsWritten()
    ensures Crlf(Words(MethodName(POST), Ascii("/a"), Ascii("HTTP/1.1"))) == Ascii("POST /a HTTP/1.1\r\n")
  {
  }

  // ---- fields --------------------------------------------------------------------------------------------

  /** A field with any white space, or none, behind its colon. */
  lemma {:induction false} AnyFieldRead(req: Request, name: seq<byte>, space: seq<byte>, value: seq<byte>)
    requires 58 !in name && (forall b :: b in space ==> IsSpace(b)) && (value == [] || !IsSpace(value[0]))
    ensures AfterHeaderLine(req, name + [58] + space + value) == Headers(req.(headers := req.headers[Lower(name) := value]))
  {
    var line := name + [58] + space + value;
    assert line == name + ([58] + (space + value));
    IndexOfAfter(name, 58, [58] + (space + value));
    assert line[..|name|] == name && line[|name| + 1..] == space + value;
    SpaceSkipped(space, value);
    hide SkipSpace, Lower;
  }

  /** A line without a colon that is not empty is refused, and only such a line. */
  lemma {:induction false} FieldRefusedIff(req: Request, line: seq<byte>)
    ensures AfterHeaderLine(req, line).Failed? <==> line != [] && 58 !in line
    ensures AfterHeaderLine(req, line).Body? <==> line == []
    ensures AfterHeaderLine(req, line).Body? || AfterHeaderLine(req, line).Headers? || AfterHeaderLine(req, line).Failed?
  {
    IndexOfMeans(line, 58);
    var d := IndexOf(line, 58);
    assert d == |line| ==> line[..d] == line;
    if d < |line| {
      assert line[d] in line;
    }
  }

  // ---- which streams fail --------------------------------------------------------------------------------

  /** The complete lines of a stream, each without the carriage return at its end. */
  function CompleteLines(stream: seq<byte>): seq<seq<byte>>
    decreases |stream|
  {
    var n := IndexOf(stream, 10);
    if n == |stream| then [] else [Chomp(stream[..n])] + CompleteLines(stream[n + 1..])
  }

  /** Three words, the last of which is a version that the parser knows. */
  predicate GoodFirst(line: seq<byte>) {
    var (name, rest) := Word(line);
    var (uri, rest2) := Word(rest);
    name != [] && uri != [] && IsVersion(Word(rest2).0)
  }

  /** Among these lines, before the first empty one, is one without a colon. */
  predicate BadField(lines: seq<seq<byte>>) {
    exists k :: 0 <= k < |lines| && lines[k] != [] && 58 !in lines[k] && forall j :: 0 <= j < k ==> lines[j] != []
  }

  lemma {:induction false} BadFieldStep(lines: seq<seq<byte>>)
    requires lines != []
    ensures BadField(lines) <==> lines[0] != [] && (58 !in lines[0] || BadField(lines[1..]))
  {
    var more := lines[1..];
    if BadField(lines) {
      var k :| 0 <= k < |lines| && lines[k] != [] && 58 !in lines[k] && forall j :: 0 <= j < k ==> lines[j] != [];
      if k > 0 {
        assert more[k - 1] == lines[k];
        assert forall j :: 0 <= j < k - 1 ==> more[j] == lines[j + 1];
      }
    }
    if lines[0] != [] && BadField(more) {
      var k :| 0 <= k < |more| && more[k] != [] && 58 !in more[k] && forall j :: 0 <= j < k ==> more[j] != [];
      assert lines[k + 1] == more[k];
      assert forall j :: 0 < j < k + 1 ==> lines[j] == more[j - 1];
    }
  }

  lemma {:induction false} HeadersFailIff(req: Request, stream: seq<byte>)
    ensures Drain(HttpStep, Headers(req), stream).state.Failed? <==> BadField(CompleteLines(stream))
    decreases |stream|
  {
    hide Drain, HttpStep, AfterHeaderLine, BadField, Chomp;
    LineStep(Headers(req), stream);
    var n := IndexOf(stream, 10);
    if n == |stream| {
      NoBadField();
    } else {
      var line := Chomp(stream[..n]);
      FieldRefusedIff(req, line);
      BadFieldStep(CompleteLines(stream));
      var t := AfterHeaderLine(req, line);
      if t.Headers? {
        HeadersFailIff(t.req, stream[n + 1..]);
      } else if t.Body? {
        BodyNeverFails(t.req, stream[n + 1..]);
      }
    }
  }

  lemma {:induction false} NoBadField()
    ensures !BadField([])
  {
  }

  lemma {:induction false} BodyNeverFails(req: Request, rest: seq<byte>)
    ensures !Drain(HttpStep, Body(req), rest).state.Failed?
  {
    BodyStep(req, rest);
    hide Drain, HttpStep;
  }

  lemma {:induction false} FirstRefusedIff(line: seq<byte>)
    ensures AfterRequestLine(line).Failed? <==> !GoodFirst(line)
    ensures AfterRequestLine(line).Failed? || AfterRequestLine(line).Headers?
  {
    VersionsAreSpelled([]);
    hide Word;
  }

  /** The parser ends in its error state exactly if the first complete line is no request line, or one of the lines behind
    * it and before the empty line has no colon; however the stream is cut. */
  lemma {:induction false} FailsIff(chunks: seq<seq<byte>>)
    ensures FeedAll(HttpStep, Start(RequestLine), chunks).state.Failed? <==>
            var lines := CompleteLines(Flat(chunks));
            lines != [] && (!GoodFirst(lines[0]) || BadField(lines[1..]))
  {
    CutsDontMatter(chunks, chunks);
    hide FeedAll, Flat, Drain, HttpStep, AfterRequestLine, BadField, Chomp, GoodFirst;
    var stream := Flat(chunks);
    LineStep(RequestLine, stream);
    var n := IndexOf(stream, 10);
    if n < |stream| {
      var t := AfterRequestLine(Chomp(stream[..n]));
      FirstRefusedIff(Chomp(stream[..n]));
      if t.Headers? {
        HeadersFailIff(t.req, stream[n + 1..]);
      }
    }
  }

  /** What `feed` counts as consumed of a request with anything behind it is the request. */
  lemma {:induction false} RequestIsConsumed(verb: Method, uri: seq<byte>, version: seq<byte>, hs: seq<Header>, body: seq<byte>, rest: seq<byte>)
    requires verb != UNKNOWN && uri != [] && NoSpace(uri) && IsVersion(version) && forall h :: h in hs ==> h.Valid()
    requires LengthFits(Collected(map[], hs), body)
    ensures var text := RequestText(verb, uri, version, hs, body);
            var d := Drain(HttpStep, RequestLine, text + rest);
            |text + rest| - |d.rest| + Counted(d.state, d.rest) == |text|
  {
    RequestDrained(verb, uri, version, hs, body, rest);
    hide Drain, HttpStep, RequestText, Collected, ContentLength, Stoul, NoSpace, IsVersion;
  }

  /** And of what is refused, everything up to the end of the line that is at fault: the first, or one among the fields. */
  lemma {:induction false} FaultIsConsumed(req: Request, line: seq<byte>, rest: seq<byte>)
    requires OneLine(line)
    ensures !GoodFirst(line) ==>
              var d := Drain(HttpStep, RequestLine, Crlf(line) + rest);
              d.rest == Crlf(line) + rest && Counted(d.state, d.rest) == |line| + 2
    ensures line != [] && 58 !in line ==>
              var d := Drain(HttpStep, Headers(req), Crlf(line) + rest);
              d.rest == Crlf(line) + rest && Counted(d.state, d.rest) == |line| + 2
  {
    hide Drain, HttpStep, AfterRequestLine, AfterHeaderLine, GoodFirst, Crlf, Chomp;
    LineTaken(line, rest);
    FirstRefusedIff(line);
    FieldRefusedIff(req, line);
    LineStep(RequestLine, Crlf(line) + rest);
    LineStep(Headers(req), Crlf(line) + rest);
  }

  // ---- lengths -------------------------------------------------------------------------------------------

  /** What the parser takes for the length of a body: the digits in front of anything else, behind a sign if there is
    * one; a minus sign takes the number from 2^64. */
  lemma {:induction false} LengthsRead(n: nat, rest: seq<byte>)
    requires 0 < n < 0x1_0000_0000_0000_0000 && (rest == [] || !(48 <= rest[0] <= 57))
    ensures Stoul(Decimal(n) + rest) == Some(n)
    ensures Stoul([43] + (Decimal(n) + rest)) == Some(n)
    ensures Stoul([45] + (Decimal(n) + rest)) == Some(0x1_0000_0000_0000_0000 - n)
  {
    StoulOfDecimal(n, rest);
    SignRead(43, n, rest);
    SignRead(45, n, rest);
    hide Stoul;
  }

  lemma {:induction false} SignRead(sign: byte, n: nat, rest: seq<byte>)
    requires 0 < n < 0x1_0000_0000_0000_0000 && (rest == [] || !(48 <= rest[0] <= 57)) && (sign == 43 || sign == 45)
    ensures Stoul([sign] + (Decimal(n) + rest)) == Some(if sign == 43 then n else 0x1_0000_0000_0000_0000 - n)
  {
    var d := Decimal(n);
    DecimalMeans(n);
    DigitCountOf(d, rest);
    hide Decimal, Number, DigitCount, AllDigits;
    assert (d + rest)[..|d|] == d;
    var s := [sign] + (d + rest);
    assert s[1..] == d + rest;
    assert SkipSpace(s) == s;
  }

  /** Without a digit there is no length. */
  lemma {:induction false} NoLength(s: seq<byte>)
    requires s == [] || !(48 <= s[0] <= 57 || s[0] == 43 || s[0] == 45 || IsSpace(s[0]))
    ensures Stoul(s) == None
  {
  }
}
