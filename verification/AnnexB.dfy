/**
  * Two independently written splitters of an Annex B byte stream (ITU-T H.264): `ExtractNALUnits` of
  * src/rtp/rawh264source.cpp and `ParseNALUnitsFromPacket` of src/media/nalsource_adapter.cpp.
  */
module AnnexB {
  import opened Bytes

  /** A NAL unit and its type, the low five bits of its first byte. */
  datatype Nal = Nal(data: seq<byte>, kind: byte)

  function NalOf(data: seq<byte>): Nal
    requires data != []
  {
    Nal(data, data[0] % 32)
  }

  /** The length of the start code a stream begins with; the four-byte form is preferred. */
  function CodeLength(s: seq<byte>): (n: nat)
    ensures n <= |s|
  {
    if |s| >= 4 && s[0] == 0 && s[1] == 0 && s[2] == 0 && s[3] == 1 then 4
    else if |s| >= 3 && s[0] == 0 && s[1] == 0 && s[2] == 1 then 3
    else 0
  }

  /** Where the first start code begins, or the length of the stream if there is none. */
  function NextCode(s: seq<byte>): (k: nat)
    ensures k <= |s|
    ensures k < |s| ==> CodeLength(s[k..]) > 0
  {
    if s == [] || CodeLength(s) > 0 then 0
    else
      assert forall k :: 0 <= k <= |s[1..]| ==> s[1..][k..] == s[k + 1..];
      1 + NextCode(s[1..])
  }

  /** The non-empty stretches between start codes. */
  function Units(s: seq<byte>): seq<Nal>
    decreases |s|
  {
    var k := NextCode(s);
    if k == |s| then []
    else
      var body := s[k + CodeLength(s[k..])..];
      var e := NextCode(body);
      (if e == 0 then [] else [NalOf(body[..e])]) + Units(body[e..])
  }

  /** Every unit has a first byte, whose lower five bits are its type. */
  lemma {:induction false} KindsAreTypes(s: seq<byte>, nal: Nal)
    requires nal in Units(s)
    ensures nal.data != [] && nal.kind == nal.data[0] % 32
    decreases |s|
  {
    var k := NextCode(s);
    var body := s[k + CodeLength(s[k..])..];
    var e := NextCode(body);
    if nal in Units(body[e..]) {
      hide NextCode, CodeLength;
      KindsAreTypes(body[e..], nal);
    }
  }

  /** Nothing before position `k` begins a start code. */
  lemma {:induction false} NextCodeIs(s: seq<byte>, k: nat)
    requires k <= |s|
    requires forall i :: 0 <= i < k ==> CodeLength(s[i..]) == 0
    requires k == |s| || CodeLength(s[k..]) > 0
    ensures NextCode(s) == k
    decreases k
  {
    if k > 0 {
      assert s[0..] == s;
      forall i | 0 <= i < k - 1
        ensures CodeLength(s[1..][i..]) == 0
      {
        assert s[1..][i..] == s[i + 1..];
      }
      assert s[1..][k - 1..] == s[k..];
      NextCodeIs(s[1..], k - 1);
    } else {
      assert s[0..] == s;
    }
  }

  lemma {:induction false} NextCodeSkips(s: seq<byte>)
    requires s != [] && CodeLength(s) == 0
    ensures NextCode(s) == 1 + NextCode(s[1..])
  {
  }

  /** The first unit, if it is not empty, and the units after it. */
  lemma {:induction false} UnitsStep(s: seq<byte>)
    ensures var k := NextCode(s);
            if k == |s| then Units(s) == []
            else
              var body := s[k + CodeLength(s[k..])..];
              var e := NextCode(body);
              && |body| < |s|
              && Units(s) == (if e == 0 then [] else [NalOf(body[..e])]) + Units(body[e..])
  {
    hide NextCode;
  }

  /** Skipping a byte that begins no start code does not change the units. */
  lemma {:induction false} UnitsSkip(s: seq<byte>)
    requires s != [] && CodeLength(s) == 0
    ensures Units(s) == Units(s[1..])
  {
    hide Units, NextCode, CodeLength;
    NextCodeSkips(s);
    UnitsStep(s);
    UnitsStep(s[1..]);
    var k := NextCode(s);
    if k < |s| {
      assert s[1..][k - 1..] == s[k..];
      assert s[1..][k - 1 + CodeLength(s[k..])..] == s[k + CodeLength(s[k..])..];
    }
  }

  /** The start code test on indices, as the code writes it. */
  lemma {:induction false} CodeLengthAt(data: seq<byte>, i: nat)
    requires i <= |data|
    ensures CodeLength(data[i..])
         == if i + 4 <= |data| && data[i] == 0 && data[i + 1] == 0 && data[i + 2] == 0 && data[i + 3] == 1 then 4
            else if i + 3 <= |data| && data[i] == 0 && data[i + 1] == 0 && data[i + 2] == 1 then 3
            else 0
  {
    var s := data[i..];
    assert forall k :: 0 <= k < |s| ==> s[k] == data[i + k];
  }

  lemma {:induction false} UnitsAtEnd(data: seq<byte>)
    ensures Units(data[|data|..]) == []
  {
    assert data[|data|..] == [];
  }

  /** `ExtractNALUnits` */
  method ExtractNALUnits(data: seq<byte>) returns (nals: seq<Nal>)
    ensures nals == Units(data)
  {
    hide CodeLength, Units;
    nals := [];
    var i := 0;
    assert data[0..] == data;
    while i < |data|
      invariant i <= |data|
      invariant Units(data) == nals + Units(data[i..])
    {
      var codeSize := 0;
      if i + 4 <= |data| && data[i] == 0 && data[i + 1] == 0 && data[i + 2] == 0 && data[i + 3] == 1 {
        codeSize := 4;
      } else if i + 3 <= |data| && data[i] == 0 && data[i + 1] == 0 && data[i + 2] == 1 {
        codeSize := 3;
      }
      CodeLengthAt(data, i);
      if codeSize == 0 {
        CodeLengthAt(data, i);
        SkipTo(data, i, i + 1);
        i := i + 1;
        continue;
      }
      var start := i + codeSize;
      var j := start;
      while j < |data|
        invariant NoCode(data, start, j)
      {
        CodeLengthAt(data, j);
        if j + 4 <= |data| && data[j] == 0 && data[j + 1] == 0 && data[j + 2] == 0 && data[j + 3] == 1 {
          break;
        }
        if j + 3 <= |data| && data[j] == 0 && data[j + 1] == 0 && data[j + 2] == 1 {
          break;
        }
        j := j + 1;
      }
      OneUnit(data, i, j);
      ghost var found := if start < j then [NalOf(data[start..j])] else [];
      Associate(nals, found, Units(data[j..]));
      if start < j {
        nals := nals + [NalOf(data[start..j])];
      }
      i := j;
    }
    UnitsAtEnd(data);
  }

  lemma {:induction false} UnitsStart(s: seq<byte>)
    requires CodeLength(s) > 0
    ensures var body := s[CodeLength(s)..];
            var e := NextCode(body);
            Units(s) == (if e == 0 then [] else [NalOf(body[..e])]) + Units(body[e..])
  {
    assert s[0..] == s;
    assert NextCode(s) == 0;
  }

  /** No start code begins in `[start, j)`. */
  ghost predicate NoCode(data: seq<byte>, start: nat, j: nat) {
    start <= j <= |data| && forall k :: start <= k < j ==> CodeLength(data[k..]) == 0
  }

  lemma {:induction false} NextCodeFrom(data: seq<byte>, start: nat, j: nat)
    requires NoCode(data, start, j) && (j == |data| || CodeLength(data[j..]) > 0)
    ensures NextCode(data[start..]) == j - start
  {
    var body := data[start..];
    forall k | 0 <= k < j - start
      ensures CodeLength(body[k..]) == 0
    {
      assert body[k..] == data[start + k..];
    }
    assert body[j - start..] == data[j..];
    NextCodeIs(body, j - start);
  }

  /** One start code at `i`, the next one (or the end) at `j`. */
  lemma {:induction false} OneUnit(data: seq<byte>, i: nat, j: nat)
    requires i < |data| && CodeLength(data[i..]) > 0
    requires NoCode(data, i + CodeLength(data[i..]), j) && (j == |data| || CodeLength(data[j..]) > 0)
    ensures var start := i + CodeLength(data[i..]);
            Units(data[i..]) == (if start < j then [NalOf(data[start..j])] else []) + Units(data[j..])
  {
    hide Units, CodeLength, NextCode;
    var s := data[i..];
    var start := i + CodeLength(s);
    UnitsStart(s);
    NextCodeFrom(data, start, j);
    assert s[CodeLength(s)..] == data[start..];
    assert data[start..][..j - start] == data[start..j];
    assert data[start..][j - start..] == data[j..];
  }

  /** `FindStartCode`: the position of the first start code from `from` on, if any. */
  method FindStartCode(data: seq<byte>, from: nat) returns (pos: Option<nat>)
    ensures pos.Some? ==>
      from <= pos.value < |data| && CodeLength(data[pos.value..]) > 0 && NoCode(data, from, pos.value)
    ensures pos.None? && from <= |data| ==> NoCode(data, from, |data|)
  {
    if from >= |data| {
      return None;
    }
    for i := from to |data|
      invariant NoCode(data, from, i)
    {
      CodeLengthAt(data, i);
      if i + 3 < |data| && data[i] == 0 && data[i + 1] == 0 && data[i + 2] == 0 && data[i + 3] == 1 {
        return Some(i);
      }
      if i + 2 < |data| && data[i] == 0 && data[i + 1] == 0 && data[i + 2] == 1 {
        return Some(i);
      }
    }
    return None;
  }

  /** `ParseNALUnitsFromPacket`, for the bytes and types of the units. It finds the same units. */
  method ParseNALUnitsFromPacket(data: seq<byte>) returns (units: seq<Nal>)
    ensures units == Units(data)
  {
    hide CodeLength, NextCode, NoCode, Units;
    units := [];
    var startPos := 0;
    assert data[0..] == data;
    while startPos < |data|
      invariant startPos <= |data|
      invariant Units(data) == units + Units(data[startPos..])
      decreases |data| - startPos
    {
      var code := FindStartCode(data, startPos);
      if code == None {
        SkipTo(data, startPos, |data|);
        UnitsAtEnd(data);
        return;
      }
      SkipTo(data, startPos, code.value);
      CodeLengthAt(data, code.value);
      var nalStart := code.value;
      if |data| - code.value >= 4 && data[nalStart] == 0 && data[nalStart + 1] == 0 && data[nalStart + 2] == 0 && data[nalStart + 3] == 1 {
        nalStart := nalStart + 4;
      } else if |data| - code.value >= 3 && data[nalStart] == 0 && data[nalStart + 1] == 0 && data[nalStart + 2] == 1 {
        nalStart := nalStart + 3;
      }
      var next := FindStartCode(data, nalStart);
      var nalEnd := if next.Some? then next.value else |data|;
      OneUnit(data, code.value, nalEnd);
      ghost var found := if nalStart < nalEnd then [NalOf(data[nalStart..nalEnd])] else [];
      Associate(units, found, Units(data[nalEnd..]));
      if nalEnd - nalStart > 0 {
        units := units + [Nal(data[nalStart..nalEnd], data[nalStart] % 32)];
      }
      startPos := nalEnd;
    }
    UnitsAtEnd(data);
  }

  /** Bytes that begin no start code contribute nothing. */
  lemma {:induction false} SkipTo(data: seq<byte>, i: nat, j: nat)
    requires NoCode(data, i, j)
    ensures Units(data[i..]) == Units(data[j..])
    decreases j - i
  {
    if i < j {
      UnitsSkip(data[i..]);
      assert data[i..][1..] == data[i + 1..];
      SkipTo(data, i + 1, j);
    }
  }

  // ---- round trip ----------------------------------------------------------------------------------

  /** No start code begins inside the unit. */
  ghost predicate Clean(nal: seq<byte>) {
    forall i :: 0 <= i && i + 2 < |nal| ==> !(nal[i] == 0 && nal[i + 1] == 0 && nal[i + 2] == 1)
  }

  function StartCode(long: bool): seq<byte> {
    if long then [0, 0, 0, 1] else [0, 0, 1]
  }

  /** A unit and the form of the start code before it. */
  datatype Unit = Unit(long: bool, nal: seq<byte>)

  /** A byte stream: each unit after its start code. */
  function Stream(units: seq<Unit>): seq<byte> {
    if units == [] then [] else StartCode(units[0].long) + units[0].nal + Stream(units[1..])
  }

  /** A stream can carry unit `u` before `rest`: it is not empty, contains no start code, and does not end
    * in a zero byte before a three-byte start code. */
  ghost predicate Fits(u: Unit, rest: seq<byte>) {
    && u.nal != [] && Clean(u.nal)
    && (rest == [] || StartCode(true) <= rest || (u.nal[|u.nal| - 1] != 0 && StartCode(false) <= rest))
  }

  ghost predicate Separable(units: seq<Unit>) {
    units == [] || (Fits(units[0], Stream(units[1..])) && Separable(units[1..]))
  }

  /** The units a stream carries. */
  ghost function Bodies(units: seq<Unit>): seq<Nal>
    requires Separable(units)
  {
    if units == [] then [] else [NalOf(units[0].nal)] + Bodies(units[1..])
  }

  lemma {:induction false} NoCodeInside(u: Unit, rest: seq<byte>, i: nat)
    requires Fits(u, rest) && i < |u.nal|
    ensures CodeLength((u.nal + rest)[i..]) == 0
  {
    var nal := u.nal;
    var t := (nal + rest)[i..];
    assert forall k :: 0 <= k < |t| ==> t[k] == (nal + rest)[i + k];
    if i + 2 < |nal| {
      assert !(nal[i] == 0 && nal[i + 1] == 0 && nal[i + 2] == 1);
    }
    if i + 3 < |nal| {
      assert !(nal[i + 1] == 0 && nal[i + 2] == 0 && nal[i + 3] == 1);
    }
  }

  lemma {:induction false} CodeThenMore(long: bool, more: seq<byte>)
    ensures CodeLength(StartCode(long) + more) == |StartCode(long)|
  {
    var s := StartCode(long) + more;
    assert s[..|StartCode(long)|] == StartCode(long);
    assert s[0] == 0 && s[1] == 0 && s[2] == StartCode(long)[2];
  }

  lemma {:induction false} UnitThenRest(u: Unit, rest: seq<byte>)
    requires Fits(u, rest)
    ensures Units(StartCode(u.long) + u.nal + rest) == [NalOf(u.nal)] + Units(rest)
  {
    hide CodeLength, Units;
    var code, nal := StartCode(u.long), u.nal;
    var s := code + nal + rest;
    Associate(code, nal, rest);
    CodeThenMore(u.long, nal + rest);
    assert s[0..] == s;
    forall k | |code| <= k < |code| + |nal|
      ensures CodeLength(s[k..]) == 0
    {
      assert s[k..] == (nal + rest)[k - |code|..];
      NoCodeInside(u, rest, k - |code|);
    }
    assert s[|code| + |nal|..] == rest;
    if rest != [] {
      RestIsCode(u, rest);
    }
    OneUnit(s, 0, |code| + |nal|);
    assert s[|code|..|code| + |nal|] == nal;
  }

  lemma {:induction false} RestIsCode(u: Unit, rest: seq<byte>)
    requires Fits(u, rest) && rest != []
    ensures CodeLength(rest) > 0
  {
    var long := StartCode(true) <= rest;
    var code := StartCode(long);
    assert rest == code + rest[|code|..];
    CodeThenMore(long, rest[|code|..]);
  }

  /** Every separable list of units is recovered, exactly and in order. */
  lemma {:induction false} UnitsOfStream(units: seq<Unit>)
    requires Separable(units)
    ensures Units(Stream(units)) == Bodies(units)
    decreases |units|
  {
    if units != [] {
      UnitThenRest(units[0], Stream(units[1..]));
      UnitsOfStream(units[1..]);
    }
  }

  // ---- units by the standard -------------------------------------------------------------------------

  predicate Starts(s: seq<byte>, third: byte) {
    |s| >= 3 && s[0] == 0 && s[1] == 0 && s[2] == third
  }

  /** Where the first start code prefix 00 00 01 begins, or the length of the stream if there is none. */
  function NextPrefix(s: seq<byte>): (k: nat)
    ensures k <= |s|
    ensures k < |s| ==> Starts(s[k..], 1)
  {
    if s == [] || Starts(s, 1) then 0
    else
      assert forall k :: 0 <= k <= |s[1..]| ==> s[1..][k..] == s[k + 1..];
      1 + NextPrefix(s[1..])
  }

  /** Where a unit ends by section B.1.2: before the first 00 00 00 or 00 00 01, or with the stream. */
  function UnitEnd(s: seq<byte>): (k: nat)
    ensures k <= |s|
  {
    if s == [] || Starts(s, 0) || Starts(s, 1) then 0 else 1 + UnitEnd(s[1..])
  }

  /** The units of a byte stream by section B.1.2 of ITU-T H.264; an empty one is none. */
  function Standard(s: seq<byte>): seq<Nal>
    decreases |s|
  {
    var k := NextPrefix(s);
    if k == |s| then []
    else
      var body := s[k + 3..];
      var e := UnitEnd(body);
      (if e == 0 then [] else [NalOf(body[..e])]) + Standard(body[e..])
  }

  ghost predicate HasZeros(nal: seq<byte>) {
    exists i :: 0 <= i && i + 2 < |nal| && nal[i] == 0 && nal[i + 1] == 0 && nal[i + 2] == 0
  }

  /** Between its start code and the next one a unit has no 00 00 00, and it does not end in 00 before a start code. */
  ghost predicate Tidy(s: seq<byte>)
    decreases |s|
  {
    var k := NextCode(s);
    k == |s| ||
    var body := s[k + CodeLength(s[k..])..];
    var e := NextCode(body);
    !HasZeros(body[..e]) && (0 < e < |body| ==> body[e - 1] != 0) && Tidy(body[e..])
  }

  lemma {:induction false} PrefixSkip(s: seq<byte>)
    requires s != [] && !Starts(s, 1)
    ensures NextPrefix(s) == 1 + NextPrefix(s[1..])
    ensures Standard(s) == Standard(s[1..])
  {
    var k := NextPrefix(s);
    if k < |s| {
      assert s[1..][k - 1..] == s[k..];
      assert s[1..][k - 1 + 3..] == s[k + 3..];
    }
  }

  /** The first prefix lies at the end of the first start code. */
  lemma {:induction false} PrefixInCode(s: seq<byte>)
    ensures var k := NextCode(s);
            if k == |s| then NextPrefix(s) == |s| else NextPrefix(s) + 3 == k + CodeLength(s[k..])
  {
    if s != [] {
      assert s[0..] == s;
      if CodeLength(s) == 4 {
        PrefixSkip(s);
        assert s[1..][0..] == s[1..];
      } else if CodeLength(s) == 0 {
        NextCodeSkips(s);
        PrefixSkip(s);
        PrefixInCode(s[1..]);
        var k := NextCode(s);
        assert s[1..][k - 1..] == s[k..];
      }
    }
  }

  /** Up to a start code, and where it has not begun, there is no prefix. */
  lemma {:induction false} StandardSkips(s: seq<byte>, e: nat)
    requires e <= NextCode(s)
    ensures Standard(s) == Standard(s[e..])
    decreases e
  {
    assert s[0..] == s;
    if e > 0 {
      NextCodeSkips(s);
      PrefixSkip(s);
      StandardSkips(s[1..], e - 1);
      assert s[1..][e - 1..] == s[e..];
    }
  }

  lemma {:induction false} UnitEndIs(s: seq<byte>)
    ensures UnitEnd(s) == if s == [] || Starts(s, 0) || Starts(s, 1) then 0 else 1 + UnitEnd(s[1..])
  {
  }

  /** A unit ends at the next start code exactly if it is tidy, and before it otherwise. */
  lemma {:induction false} EndOfUnit(body: seq<byte>)
    ensures var e := NextCode(body);
            && UnitEnd(body) <= e
            && (UnitEnd(body) == e <==> !HasZeros(body[..e]) && (0 < e < |body| ==> body[e - 1] != 0))
  {
    hide NextCode, CodeLength, UnitEnd, HasZeros;
    var e := NextCode(body);
    UnitEndIs(body);
    CodeLengthAt(body, 0);
    assert body[0..] == body;
    if e == 0 {
      NoZeros(body[..e]);
    } else {
      NotAtCode(body);
      NextCodeSkips(body);
      var t := body[1..];
      EndOfUnit(t);
      ZerosFirst(body[..e]);
      assert body[..e][1..] == t[..e - 1];
      if e < |body| {
        CodeLengthAt(body, e);
      }
      if e == 1 {
        NoZeros(t[..0]);
        AtCode(t);
      }
    }
  }

  lemma {:induction false} NoZeros(s: seq<byte>)
    requires |s| < 3
    ensures !HasZeros(s)
  {
  }

  lemma {:induction false} NotAtCode(s: seq<byte>)
    requires NextCode(s) > 0
    ensures CodeLength(s) == 0
  {
  }

  lemma {:induction false} AtCode(s: seq<byte>)
    requires NextCode(s) == 0
    ensures UnitEnd(s) == 0
  {
    assert s[0..] == s;
  }

  lemma {:induction false} ZerosFirst(s: seq<byte>)
    requires s != []
    ensures HasZeros(s) <==> Starts(s, 0) || HasZeros(s[1..])
  {
    if HasZeros(s[1..]) {
      var i :| 0 <= i && i + 2 < |s[1..]| && s[1..][i] == 0 && s[1..][i + 1] == 0 && s[1..][i + 2] == 0;
      assert s[i + 1] == 0 && s[i + 1 + 1] == 0 && s[i + 1 + 2] == 0;
    }
    if HasZeros(s) && !Starts(s, 0) {
      var i :| 0 <= i && i + 2 < |s| && s[i] == 0 && s[i + 1] == 0 && s[i + 2] == 0;
      assert s[1..][i - 1] == 0 && s[1..][i - 1 + 1] == 0 && s[1..][i - 1 + 2] == 0;
    }
    if Starts(s, 0) {
      assert s[0] == 0 && s[0 + 1] == 0 && s[0 + 2] == 0;
    }
  }

  lemma {:induction false} StandardStep(s: seq<byte>)
    ensures var k := NextPrefix(s);
            if k == |s| then Standard(s) == []
            else
              k + 3 <= |s| &&
              var body := s[k + 3..];
              Standard(s) == (if UnitEnd(body) == 0 then [] else [NalOf(body[..UnitEnd(body)])]) + Standard(body[UnitEnd(body)..])
  {
    hide NextPrefix, UnitEnd;
  }

  /** The standard's unit behind a start code, and the rest of the stream. */
  lemma {:induction false} StandardUnit(s: seq<byte>)
    requires NextCode(s) < |s|
    ensures var k := NextCode(s);
            var body := s[k + CodeLength(s[k..])..];
            Standard(s) == (if UnitEnd(body) == 0 then [] else [NalOf(body[..UnitEnd(body)])]) + Standard(body[NextCode(body)..])
  {
    hide Standard, NextPrefix, UnitEnd, NextCode, CodeLength;
    PrefixInCode(s);
    StandardStep(s);
    var k := NextCode(s);
    var body := s[k + CodeLength(s[k..])..];
    EndOfUnit(body);
    StandardSkips(body, UnitEnd(body));
    StandardSkips(body, NextCode(body));
  }

  lemma {:induction false} NoMoreByStandard(s: seq<byte>)
    ensures |Standard(s)| <= |Units(s)|
    decreases |s|
  {
    PrefixInCode(s);
    if NextCode(s) < |s| {
      var k := NextCode(s);
      var body := s[k + CodeLength(s[k..])..];
      StandardUnit(s);
      EndOfUnit(body);
      NoMoreByStandard(body[NextCode(body)..]);
    }
  }

  /** One unit, as the splitters and the standard find it. */
  lemma {:induction false} OneUnitEach(s: seq<byte>)
    requires NextCode(s) < |s|
    ensures var k := NextCode(s);
            var body := s[k + CodeLength(s[k..])..];
            var d, e := UnitEnd(body), NextCode(body);
            && |body| < |s| && d <= e
            && Units(s) == (if e == 0 then [] else [NalOf(body[..e])]) + Units(body[e..])
            && Standard(s) == (if d == 0 then [] else [NalOf(body[..d])]) + Standard(body[e..])
            && (Tidy(s) <==> d == e && Tidy(body[e..]))
  {
    hide *;
    var k := NextCode(s);
    var body := s[k + CodeLength(s[k..])..];
    UnitsStep(s);
    TidyStep(s);
    StandardUnit(s);
    EndOfUnit(body);
  }

  lemma {:induction false} TidyStep(s: seq<byte>)
    requires NextCode(s) < |s|
    ensures var k := NextCode(s);
            var body := s[k + CodeLength(s[k..])..];
            var e := NextCode(body);
            Tidy(s) <==> !HasZeros(body[..e]) && (0 < e < |body| ==> body[e - 1] != 0) && Tidy(body[e..])
  {
    hide NextCode, CodeLength, HasZeros;
  }

  lemma {:induction false} NothingEither(s: seq<byte>)
    requires NextCode(s) == |s|
    ensures Units(s) == [] && Standard(s) == [] && Tidy(s)
  {
    PrefixInCode(s);
  }

  /** Both splitters return the units of the standard exactly on the streams that are tidy. */
  lemma {:induction false} StandardIffTidy(s: seq<byte>)
    ensures Units(s) == Standard(s) <==> Tidy(s)
    decreases |s|
  {
    hide Units, Standard, Tidy, NextCode, UnitEnd, CodeLength;
    if NextCode(s) == |s| {
      NothingEither(s);
    } else {
      var k := NextCode(s);
      var body := s[k + CodeLength(s[k..])..];
      var d, e := UnitEnd(body), NextCode(body);
      OneUnitEach(s);
      var ours, theirs := Units(body[e..]), Standard(body[e..]);
      NoMoreByStandard(body[e..]);
      StandardIffTidy(body[e..]);
      if d == e {
        SameFirst(if e == 0 then [] else [NalOf(body[..e])], ours, theirs);
      } else if d > 0 {
        assert Units(s)[0] == NalOf(body[..e]) && Standard(s)[0] == NalOf(body[..d]);
        assert |body[..e]| != |body[..d]|;
      }
    }
  }

  lemma {:induction false} SameFirst<T>(a: seq<T>, b: seq<T>, c: seq<T>)
    ensures a + b == a + c <==> b == c
  {
    if a + b == a + c {
      assert b == (a + b)[|a|..] == (a + c)[|a|..] == c;
    }
  }

  /** A unit behind a start code at the front of a stream. */
  lemma {:induction false} UnitInFront(s: seq<byte>, body: seq<byte>, d: nat, e: nat)
    requires CodeLength(s) > 0 && body == s[CodeLength(s)..]
    requires 0 < d <= |body| && UnitEnd(body) == d && 0 < e <= |body| && NextCode(body) == e
    ensures Units(s) == [NalOf(body[..e])] + Units(body[e..])
    ensures Standard(s) == [NalOf(body[..d])] + Standard(body[e..])
  {
    assert s[0..] == s && NextCode(s) == 0;
    OneUnitEach(s);
  }

  /** For one: zeros behind a unit. */
  lemma {:induction false} TrailingZeros()
    ensures Units([0, 0, 1, 0x65, 0, 0, 0, 0, 1, 0x41]) == [Nal([0x65, 0], 5), Nal([0x41], 1)]
    ensures Standard([0, 0, 1, 0x65, 0, 0, 0, 0, 1, 0x41]) == [Nal([0x65], 5), Nal([0x41], 1)]
  {
    hide Units, Standard, UnitEnd;
    var s: seq<byte> := [0, 0, 1, 0x65, 0, 0, 0, 0, 1, 0x41];
    var body: seq<byte> := [0x65, 0, 0, 0, 0, 1, 0x41];
    var last: seq<byte> := [0, 0, 0, 1, 0x41];
    var end: seq<byte> := [0x41];
    EndsFound();
    assert s[3..] == body && last[4..] == end && body[2..] == last;
    UnitInFront(s, body, 1, 2);
    UnitInFront(last, end, 1, 1);
    NothingEither(end[1..]);
    assert body[..2] == [0x65, 0] && body[..1] == [0x65] && end[..1] == end;
  }

  lemma {:induction false} EndsFound()
    ensures UnitEnd([0x65, 0, 0, 0, 0, 1, 0x41]) == 1 && NextCode([0x65, 0, 0, 0, 0, 1, 0x41]) == 2
    ensures UnitEnd([0x41]) == 1 && NextCode([0x41]) == 1
  {
    var body: seq<byte> := [0x65, 0, 0, 0, 0, 1, 0x41];
    var end: seq<byte> := [0x41];
    CodeLengthAt(body, 0);
    CodeLengthAt(body, 1);
    CodeLengthAt(body, 2);
    CodeLengthAt(end, 0);
    EndAtZeros(0x65, [0, 0, 0, 0, 1, 0x41]);
    EndAtZeros(0x41, []);
    assert body == [0x65] + [0, 0, 0, 0, 1, 0x41] && end == [0x41] + [];
    hide CodeLength, NextCode, UnitEnd;
    NextCodeIs(body, 2);
    NextCodeIs(end, 1);
  }

  lemma {:induction false} EndAtZeros(b: byte, rest: seq<byte>)
    requires b != 0 && (rest == [] || Starts(rest, 0))
    ensures UnitEnd([b] + rest) == 1
  {
    assert ([b] + rest)[1..] == rest;
  }
}
