/**
  * What the messages of src/gb28181/sip_message.cpp look like on the wire (sections 7.1 to 7.3 of RFC 3261), letter by
  * letter, and what becomes of header fields that are not written as the program writes them.
  */
module SipText {
  import opened Bytes
  import opened Sip
  import opened Text

  // ---- spelling ------------------------------------------------------------------------------------------

  /** The methods as they are spelled; any other word is an unknown method. */
  lemma {:induction false} MethodsAreSpelled(word: seq<byte>)
    ensures StringToMethod(word) == REGISTER <==> word == [82, 69, 71, 73, 83, 84, 69, 82]
    ensures StringToMethod(word) == INVITE <==> word == [73, 78, 86, 73, 84, 69]
    ensures StringToMethod(word) == ACK <==> word == [65, 67, 75]
    ensures StringToMethod(word) == BYE <==> word == [66, 89, 69]
    ensures StringToMethod(word) == CANCEL <==> word == [67, 65, 78, 67, 69, 76]
    ensures StringToMethod(word) == MESSAGE <==> word == [77, 69, 83, 83, 65, 71, 69]
    ensures StringToMethod(word) == OPTIONS <==> word == [79, 80, 84, 73, 79, 78, 83]
    ensures StringToMethod(word) == SUBSCRIBE <==> word == [83, 85, 66, 83, 67, 82, 73, 66, 69]
    ensures StringToMethod(word) == NOTIFY <==> word == [78, 79, 84, 73, 70, 89]
  {
    assert Ascii("REGISTER") == [82, 69, 71, 73, 83, 84, 69, 82];
    assert Ascii("INVITE") == [73, 78, 86, 73, 84, 69];
    assert Ascii("ACK") == [65, 67, 75];
    assert Ascii("BYE") == [66, 89, 69];
    assert Ascii("CANCEL") == [67, 65, 78, 67, 69, 76];
    assert Ascii("MESSAGE") == [77, 69, 83, 83, 65, 71, 69];
    assert Ascii("OPTIONS") == [79, 80, 84, 73, 79, 78, 83];
    assert Ascii("SUBSCRIBE") == [83, 85, 66, 83, 67, 82, 73, 66, 69];
    assert Ascii("NOTIFY") == [78, 79, 84, 73, 70, 89];
    hide Ascii;
  }

  /** A request without header fields: method, address, version; its length is written in front of the empty line. */
  lemma {:induction false} RequestIsWritten()
    ensures MessageText(Message(Request(BYE, Ascii("sip:a@b")), map[], Ascii("hi")), []) ==
            Ascii("BYE sip:a@b SIP/2.0\r\n") + (Ascii("Content-Length: 2\r\n") + (Ascii("\r\n") + Ascii("hi")))
  {
    BareText(Request(BYE, Ascii("sip:a@b")), Ascii("hi"));
    RequestLineIsWritten();
    LengthIsWritten(2, "2");
  }

  /** A response: version, status, reason. */
  lemma {:induction false} ResponseIsWritten()
    ensures MessageText(Message(Response(200, Ascii("OK")), map[], []), []) ==
            Ascii("SIP/2.0 200 OK\r\n") + (Ascii("Content-Length: 0\r\n") + (Ascii("\r\n") + []))
  {
    BareText(Response(200, Ascii("OK")), []);
    ResponseLineIsWritten();
    LengthIsWritten(0, "0");
  }

  lemma {:induction false} BareText(first: FirstLine, body: seq<byte>)
    ensures MessageText(Message(first, map[], body), []) ==
            Crlf(StartLine(first)) + (Crlf(Field(ContentLengthName(), Decimal(|body|))) + (Ascii("\r\n") + body))
  {
    hide StartLine, Field, Decimal, ContentLengthName;
    var m, none := Message(first, map[], body), FieldLines([], map[]);
    var a, b := StartLine(first), Field(ContentLengthName(), Decimal(|body|));
    assert Lines(m, []) == [a, b];
    TwoLines(a, b);
    assert Crlf([]) == Ascii("\r\n");
    Associate(Crlf(a), Crlf(b), Crlf([]) + body);
  }

  lemma {:induction false} TwoLines(a: seq<byte>, b: seq<byte>)
    ensures LinesText([a, b]) == Crlf(a) + Crlf(b)
  {
    assert [a, b][1..] == [b] && [b][1..] == [];
    assert LinesText([b]) == Crlf(b) + [];
  }

  lemma {:induction false} RequestLineIsWritten()
    ensures Crlf(StartLine(Request(BYE, Ascii("sip:a@b")))) == Ascii("BYE sip:a@b SIP/2.0\r\n")
  {
  }

  lemma {:induction false} ResponseLineIsWritten()
    ensures Crlf(StartLine(Response(200, Ascii("OK")))) == Ascii("SIP/2.0 200 OK\r\n")
  {
    assert Decimal(2) == [50] && Decimal(20) == [50, 48] && Decimal(200) == [50, 48, 48];
    hide Decimal;
  }

  lemma {:induction false} LengthIsWritten(n: nat, digit: string)
    requires n < 10 && |digit| == 1 && digit[0] as int == 48 + n
    ensures Crlf(Field(ContentLengthName(), Decimal(n))) == Ascii("Content-Length: " + digit + "\r\n")
  {
    AsciiAppend("Content-Length: ", digit);
    AsciiAppend("Content-Length: " + digit, "\r\n");
    assert Ascii(digit) == Decimal(n);
    assert Ascii("\r\n") == [13, 10];
    assert ContentLengthName() + [COLON, SPACE] == Ascii("Content-Length: ");
    hide Ascii, ContentLengthName;
  }

  // ---- fields --------------------------------------------------------------------------------------------

  lemma {:induction false} OnlySpacesDropped(spaces: seq<byte>, value: seq<byte>)
    requires (forall b :: b in spaces ==> b == 32) && (value == [] || value[0] != 32)
    ensures DropSpaces(spaces + value) == value
  {
    if spaces == [] {
      assert spaces + value == value;
    } else {
      assert spaces[0] in spaces && (spaces + value)[1..] == spaces[1..] + value;
      assert forall b :: b in spaces[1..] ==> b in spaces;
      OnlySpacesDropped(spaces[1..], value);
    }
  }

  /** A field with any number of spaces behind its colon, or none: they are dropped - only spaces, and not if there is
    * nothing else. */
  lemma {:induction false} AnyFieldRead(headers: Headers, name: seq<byte>, spaces: seq<byte>, value: seq<byte>)
    requires 58 !in name && (forall b :: b in spaces ==> b == 32) && (value == [] || value[0] != 32)
    ensures ParseField(headers, name + [58] + spaces + value) == headers[Lower(name) := if value == [] then spaces else value]
  {
    var line := name + [58] + spaces + value;
    assert line == name + ([58] + (spaces + value));
    IndexOfAfter(name, 58, [58] + (spaces + value));
    assert line[..|name|] == name && line[|name| + 1..] == spaces + value;
    OnlySpacesDropped(spaces, value);
    assert value == [] ==> spaces + value == spaces;
    hide DropSpaces, Lower;
  }

  /** A line without a colon is passed over. */
  lemma {:induction false} NoField(headers: Headers, line: seq<byte>)
    requires 58 !in line
    ensures ParseField(headers, line) == headers
  {
    IndexOfMeans(line, 58);
    assert forall i :: 0 <= i < |line| ==> line[i] in line;
  }

  // ---- responses -----------------------------------------------------------------------------------------

  /** A status of up to 31 bits is cut off to 16 of them; what is behind it, without the spaces in front, is the reason. */
  lemma {:induction false} StatusRead(n: nat, spaces: seq<byte>, reason: seq<byte>)
    requires n < 0x8000_0000 && spaces != [] && (forall b :: b in spaces ==> b == 32) && reason != [] && reason[0] != 32
    ensures ParseFirst(Ascii("SIP/2.0 ") + (Decimal(n) + (spaces + reason))) == Line(Response(n % 65536, reason))
  {
    hide DropSpaces, Decimal, ReadInt;
    VersionAndSpace();
    assert spaces[0] in spaces;
    IntRead(n, spaces + reason);
    OnlySpacesDropped(spaces, reason);
    var rest := Decimal(n) + (spaces + reason);
    var line := Ascii("SIP/2.0 ") + rest;
    assert line[8..] == rest;
    assert Version() <= line by {
      assert line == Version() + ([32] + rest);
    }
  }

  lemma {:induction false} VersionAndSpace()
    ensures Ascii("SIP/2.0 ") == Version() + [32] && |Version()| == 7
  {
  }

  lemma {:induction false} IntRead(n: nat, rest: seq<byte>)
    requires n < 0x8000_0000 && (rest == [] || !IsDigit(rest[0]))
    ensures ReadInt(Decimal(n) + rest) == (n, true, rest)
  {
    var d := Decimal(n);
    DecimalMeans(n);
    DigitCountOf(d, rest);
    assert d[0] in d && (d + rest)[0] == d[0] && (d + rest)[..|d|] == d && (d + rest)[|d|..] == rest;
  }

  /** A greater status is read as 65535, and without a reason. */
  lemma {:induction false} GreatStatus(n: nat, rest: seq<byte>)
    requires n >= 0x8000_0000 && (rest == [] || !IsDigit(rest[0]))
    ensures ParseFirst(Ascii("SIP/2.0 ") + (Decimal(n) + rest)) == Line(Response(65535, []))
  {
    hide Decimal, ReadInt;
    VersionAndSpace();
    GreatInt(n, rest);
    var s := Decimal(n) + rest;
    var line := Ascii("SIP/2.0 ") + s;
    assert line[8..] == s;
    assert Version() <= line by {
      assert line == Version() + ([32] + s);
    }
  }

  lemma {:induction false} GreatInt(n: nat, rest: seq<byte>)
    requires n >= 0x8000_0000 && (rest == [] || !IsDigit(rest[0]))
    ensures ReadInt(Decimal(n) + rest) == (0x7FFF_FFFF, false, rest)
  {
    var d := Decimal(n);
    DecimalMeans(n);
    DigitCountOf(d, rest);
    assert d[0] in d && (d + rest)[0] == d[0] && (d + rest)[..|d|] == d && (d + rest)[|d|..] == rest;
  }
}
