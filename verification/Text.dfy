/** The pieces of the C++ library that the text protocols use: lines, tokens, numbers, lower case. */
module Text {
  import opened Bytes

  const LF: byte := 10
  const CR: byte := 13
  const SPACE: byte := 32
  const COLON: byte := 58

  // ---- characters --------------------------------------------------------------------------------------

  /** `std::isspace` in the C locale. */
  predicate IsSpace(b: byte) {
    b == SPACE || 9 <= b <= 13
  }

  predicate IsDigit(b: byte) {
    48 <= b <= 57
  }

  /** `std::tolower` in the C locale. */
  function ToLower(b: byte): byte {
    if 65 <= b <= 90 then b + 32 else b
  }

  function Lower(s: seq<byte>): (r: seq<byte>)
    ensures |r| == |s|
  {
    seq(|s|, i requires 0 <= i < |s| => ToLower(s[i]))
  }

  lemma {:induction false} LowerTwice(s: seq<byte>)
    ensures Lower(Lower(s)) == Lower(s)
  {
  }

  lemma {:induction false} LowerSnoc(s: seq<byte>, b: byte)
    ensures Lower(s + [b]) == Lower(s) + [ToLower(b)]
  {
    assert |Lower(s + [b])| == |Lower(s) + [ToLower(b)]|;
    assert forall i :: 0 <= i < |s| ==> (s + [b])[i] == s[i];
  }

  // ---- tokens ------------------------------------------------------------------------------------------

  function SkipSpace(s: seq<byte>): (r: seq<byte>)
    ensures |r| <= |s|
  {
    if s != [] && IsSpace(s[0]) then SkipSpace(s[1..]) else s
  }

  /** How many bytes come before the first white space. */
  function WordLength(s: seq<byte>): (n: nat)
    ensures n <= |s|
  {
    if s == [] || IsSpace(s[0]) then 0 else 1 + WordLength(s[1..])
  }

  /** `stream >> word`: the word, which is empty if there is none, and what is left. */
  function Word(s: seq<byte>): (seq<byte>, seq<byte>) {
    var t := SkipSpace(s);
    (t[..WordLength(t)], t[WordLength(t)..])
  }

  predicate NoSpace(s: seq<byte>) {
    forall b :: b in s ==> !IsSpace(b)
  }

  lemma {:induction false} WordLengthOf(w: seq<byte>, rest: seq<byte>)
    requires NoSpace(w) && (rest == [] || IsSpace(rest[0]))
    ensures WordLength(w + rest) == |w|
  {
    if w == [] {
      assert w + rest == rest;
    } else {
      assert w[0] in w && (w + rest)[1..] == w[1..] + rest;
      WordLengthOf(w[1..], rest);
    }
  }

  /** A word before white space or the end is taken whole. */
  lemma {:induction false} WordTaken(w: seq<byte>, rest: seq<byte>)
    requires w != [] && NoSpace(w) && (rest == [] || IsSpace(rest[0]))
    ensures Word(w + rest) == (w, rest)
    ensures Word([SPACE] + w + rest) == (w, rest)
  {
    WordLengthOf(w, rest);
    assert w[0] in w && (w + rest)[0] == w[0];
    assert ([SPACE] + w + rest)[1..] == w + rest;
  }

  /** Three words with a space between them. */
  function Words(a: seq<byte>, b: seq<byte>, c: seq<byte>): seq<byte> {
    a + ([SPACE] + b + ([SPACE] + c))
  }

  lemma {:induction false} WordsTaken(a: seq<byte>, b: seq<byte>, c: seq<byte>)
    requires a != [] && b != [] && c != [] && NoSpace(a) && NoSpace(b) && NoSpace(c)
    ensures var second := Word(Words(a, b, c)).1;
            var third := Word(second).1;
            Word(Words(a, b, c)).0 == a && Word(second).0 == b && Word(third).0 == c
    ensures LF !in Words(a, b, c)
  {
    hide Word;
    WordTaken(a, [SPACE] + b + ([SPACE] + c));
    WordTaken(b, [SPACE] + c);
    WordTaken(c, []);
    assert [SPACE] + c + [] == [SPACE] + c;
    assert IsSpace(LF) && LF !in a && LF !in b && LF !in c;
  }

  // ---- numbers -----------------------------------------------------------------------------------------

  /** A number in decimal. */
  function Decimal(n: nat): (s: seq<byte>)
    ensures s != []
  {
    if n < 10 then [48 + n] else Decimal(n / 10) + [48 + n % 10]
  }

  function DigitCount(s: seq<byte>): (n: nat)
    ensures n <= |s|
  {
    if s == [] || !IsDigit(s[0]) then 0 else 1 + DigitCount(s[1..])
  }

  /** The number written by digits. */
  function Number(digits: seq<byte>): nat {
    if digits == [] then 0
    else Number(digits[..|digits| - 1]) * 10 + (if digits[|digits| - 1] >= 48 then digits[|digits| - 1] - 48 else 0)
  }

  predicate AllDigits(s: seq<byte>) {
    forall b :: b in s ==> IsDigit(b)
  }

  lemma {:induction false} DecimalMeans(n: nat)
    ensures Number(Decimal(n)) == n && AllDigits(Decimal(n))
  {
    if n >= 10 {
      DecimalMeans(n / 10);
      var s := Decimal(n);
      assert s[..|s| - 1] == Decimal(n / 10);
    } else {
      assert Decimal(n)[..0] == [];
    }
  }

  lemma {:induction false} DigitCountOf(digits: seq<byte>, rest: seq<byte>)
    requires AllDigits(digits) && (rest == [] || !IsDigit(rest[0]))
    ensures DigitCount(digits + rest) == |digits|
  {
    if digits == [] {
      assert digits + rest == rest;
    } else {
      assert digits[0] in digits && (digits + rest)[1..] == digits[1..] + rest;
      DigitCountOf(digits[1..], rest);
    }
  }

  const SIZE_LIMIT: nat := 0x1_0000_0000_0000_0000

  const MINUS: byte := 45
  const PLUS: byte := 43

  /** `std::stoul` with 64 bits: white space, a sign, digits; whatever follows is ignored. A negative number wraps
    * around. None where it throws. */
  function Stoul(s: seq<byte>): (r: Option<nat>)
    ensures r.Some? ==> r.value < SIZE_LIMIT
  {
    var t := SkipSpace(s);
    var negative := t != [] && t[0] == MINUS;
    var u := if t != [] && (t[0] == MINUS || t[0] == PLUS) then t[1..] else t;
    var k := DigitCount(u);
    var n := Number(u[..k]);
    if k == 0 || n >= SIZE_LIMIT then None
    else if negative && n > 0 then Some(SIZE_LIMIT - n)
    else Some(n)
  }

  /** What `std::to_string` writes, `std::stoul` reads. */
  lemma {:induction false} StoulOfDecimal(n: nat, rest: seq<byte>)
    requires n < SIZE_LIMIT && (rest == [] || !IsDigit(rest[0]))
    ensures Stoul(Decimal(n) + rest) == Some(n)
  {
    var d := Decimal(n);
    DecimalMeans(n);
    DigitCountOf(d, rest);
    assert d[0] in d && (d + rest)[0] == d[0] && (d + rest)[..|d|] == d;
  }

  // ---- lines -------------------------------------------------------------------------------------------

  /** A line without the carriage return at its end. */
  function Chomp(line: seq<byte>): seq<byte> {
    if line != [] && line[|line| - 1] == CR then line[..|line| - 1] else line
  }

  lemma {:induction false} ChompOf(line: seq<byte>)
    ensures Chomp(line + [CR]) == line
  {
  }

  predicate OneLine(s: seq<byte>) {
    LF !in s
  }

  /** A line ended by CR LF. */
  function Crlf(line: seq<byte>): seq<byte> {
    line + [CR, LF]
  }

  /** It is taken off the front of any text. */
  lemma {:induction false} LineTaken(line: seq<byte>, rest: seq<byte>)
    requires OneLine(line)
    ensures var text := Crlf(line) + rest;
            && IndexOf(text, LF) == |line| + 1 < |text|
            && Chomp(text[..|line| + 1]) == line
            && text[|line| + 2..] == rest
  {
    var text := Crlf(line) + rest;
    assert text == (line + [CR]) + ([LF] + rest);
    IndexOfAfter(line + [CR], LF, [LF] + rest);
    assert text[..|line| + 1] == line + [CR];
    ChompOf(line);
  }

  /** A header field: its name, colon and a space, its value. */
  function Field(name: seq<byte>, value: seq<byte>): seq<byte> {
    name + [COLON, SPACE] + value
  }

  lemma {:induction false} FieldParts(name: seq<byte>, value: seq<byte>)
    requires COLON !in name
    ensures var line := Field(name, value);
            && IndexOf(line, COLON) == |name| < |line|
            && line[..|name|] == name
            && line[|name| + 1..] == [SPACE] + value
    ensures OneLine(name) && OneLine(value) ==> OneLine(Field(name, value))
  {
    var line := Field(name, value);
    assert line == name + ([COLON, SPACE] + value);
    IndexOfAfter(name, COLON, [COLON, SPACE] + value);
  }

  /** The bytes of a text in ASCII. */
  function Ascii(s: string): (r: seq<byte>)
    ensures |r| == |s|
    ensures forall i :: 0 <= i < |s| ==> r[i] == s[i] as int % 256
  {
    seq(|s|, i requires 0 <= i < |s| => s[i] as int % 256)
  }

  /** Letters, digits and the like: '!' to '~'. */
  predicate Visible(s: string) {
    forall c :: c in s ==> '!' <= c <= '~'
  }

  lemma {:induction false} VisibleIsWord(s: string)
    requires Visible(s)
    ensures NoSpace(Ascii(s))
  {
    forall i | 0 <= i < |s| ensures !IsSpace(Ascii(s)[i]) {
      assert s[i] in s;
    }
  }

  // ---- samples -----------------------------------------------------------------------------------------

  lemma {:induction false} AsciiAppend(a: string, b: string)
    ensures Ascii(a + b) == Ascii(a) + Ascii(b)
  {
  }

  /** The letters, and only they, have a lower case. */
  lemma {:induction false} Letters(b: byte)
    ensures Lower(Ascii("ABCDEFGHIJKLMNOPQRSTUVWXYZ")) == Ascii("abcdefghijklmnopqrstuvwxyz")
    ensures b !in Ascii("ABCDEFGHIJKLMNOPQRSTUVWXYZ") ==> Lower([b]) == [b]
  {
    InAlphabet("ABCDEFGHIJKLMNOPQRSTUVWXYZ", 65);
    InAlphabet("abcdefghijklmnopqrstuvwxyz", 97);
    hide Ascii;
    var upper := Ascii("ABCDEFGHIJKLMNOPQRSTUVWXYZ");
    if 65 <= b <= 90 {
      assert upper[b - 65] == b;
    }
  }

  lemma {:induction false} InAlphabet(letters: string, first: byte)
    requires |letters| == 26 && first < 128 && forall i :: 0 <= i < 26 ==> letters[i] as int == first + i
    ensures |Ascii(letters)| == 26 && forall i :: 0 <= i < 26 ==> Ascii(letters)[i] == first + i
  {
  }

  /** White space: space, tab, line feed, vertical tab, form feed, carriage return. */
  lemma {:induction false} Spaces(b: byte)
    ensures IsSpace(b) <==> b in Ascii(" \t\n\r") || b == 11 || b == 12
  {
    var s := Ascii(" \t\n\r");
    assert s == [32, 9, 10, 13];
  }

  /** White space in front of a value that has none in front is skipped, and nothing else. */
  lemma {:induction false} SpaceSkipped(space: seq<byte>, value: seq<byte>)
    requires (forall b :: b in space ==> IsSpace(b)) && (value == [] || !IsSpace(value[0]))
    ensures SkipSpace(space + value) == value
  {
    if space == [] {
      assert space + value == value;
    } else {
      assert space[0] in space && (space + value)[1..] == space[1..] + value;
      SpaceSkipped(space[1..], value);
    }
  }

  lemma {:induction false} DecimalSample()
    ensures Decimal(5060) == Ascii("5060") && Decimal(0) == Ascii("0") && Number(Ascii("29")) == 29
  {
    assert Decimal(5) == [53] && Decimal(50) == [53, 48] && Decimal(506) == [53, 48, 54];
    assert Ascii("29") == [50, 57] && Number([50]) == 2 && [50, 57][..1] == [50];
  }
}
