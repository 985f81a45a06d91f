/**
  * `write_nal` of tools/gen_test_h264.cpp: a start code, then header and payload with emulation
  * prevention (sections 7.3.1 and 7.4.1 of ITU-T H.264).
  */
module NalWriter {
  import opened Bytes
  import opened AnnexB

  /** Insert 03 after every two zero bytes that a byte of at most 03 follows; `zeros` bytes 00 precede. */
  function Escape(zeros: nat, raw: seq<byte>): (r: seq<byte>)
    ensures raw != [] ==> r != []
    decreases |raw|
  {
    if raw == [] then []
    else
      var b := raw[0];
      if zeros == 2 && b <= 3 then [3, b] + Escape(if b == 0 then 1 else 0, raw[1..])
      else [b] + Escape(if b == 0 then zeros + 1 else 0, raw[1..])
  }

  /** Section 7.3.1: of three bytes 00 00 03 the third is discarded. */
  function Unescape(s: seq<byte>): seq<byte> {
    if |s| >= 3 && s[0] == 0 && s[1] == 0 && s[2] == 3 then [0, 0] + Unescape(s[3..])
    else if s == [] then []
    else [s[0]] + Unescape(s[1..])
  }

  /** A written unit: four-byte start code, header, payload. */
  function Written(header: byte, payload: seq<byte>): seq<byte> {
    StartCode(true) + Escape(0, [header] + payload)
  }

  /** `write_nal`; `file` is what has been written before. */
  method WriteNal(file: seq<byte>, header: byte, payload: seq<byte>) returns (out: seq<byte>)
    ensures out == file + Written(header, payload)
  {
    out := file + [0x00, 0x00, 0x00, 0x01];
    var count := 0;
    // the test for an inserted byte also stands here in the source; the count is 0, so it never applies
    out := out + [header];
    if header == 0 {
      count := count + 1;
    } else {
      count := 0;
    }
    HeaderWritten(file, header, payload);
    hide Escape, Written;
    assert payload[0..] == payload;
    for i := 0 to |payload|
      invariant count <= 2
      invariant out + Escape(count, payload[i..]) == file + Written(header, payload)
    {
      var b := payload[i];
      ByteWritten(out, count, payload, i);
      if count == 2 && b <= 3 {
        out := out + [3];
        count := 0;
      }
      out := out + [b];
      if b == 0 {
        count := count + 1;
      } else {
        count := 0;
      }
    }
    EscapeNothing(count);
    assert payload[|payload|..] == [];
  }

  lemma {:induction false} EscapeNothing(zeros: nat)
    ensures Escape(zeros, []) == []
  {
  }

  /** Start code and header are written, the payload is to come. */
  lemma {:induction false} HeaderWritten(file: seq<byte>, header: byte, payload: seq<byte>)
    ensures file + [0x00, 0x00, 0x00, 0x01] + [header] + Escape(if header == 0 then 1 else 0, payload) == file + Written(header, payload)
  {
    assert ([header] + payload)[1..] == payload;
    var rest := Escape(if header == 0 then 1 else 0, payload);
    hide Escape;
    assert file + [0x00, 0x00, 0x00, 0x01] + [header] + rest == file + ([0x00, 0x00, 0x00, 0x01] + ([header] + rest));
  }

  /** What the next payload byte adds. */
  lemma {:induction false} ByteWritten(out: seq<byte>, zeros: nat, payload: seq<byte>, i: nat)
    requires zeros <= 2 && i < |payload|
    ensures var b := payload[i];
            var stuffed := zeros == 2 && b <= 3;
            out + Escape(zeros, payload[i..]) ==
            (if stuffed then out + [3] else out) + [b]
            + Escape(if b != 0 then 0 else if stuffed then 1 else zeros + 1, payload[i + 1..])
  {
    var b, raw := payload[i], payload[i..];
    assert raw[1..] == payload[i + 1..];
    var rest := Escape(if b != 0 then 0 else if zeros == 2 then 1 else zeros + 1, payload[i + 1..]);
    assert Escape(zeros, raw) == (if zeros == 2 && b <= 3 then [3, b] else [b]) + rest;
    hide Escape;
    assert out + ([3, b] + rest) == out + [3] + [b] + rest;
    Associate(out, [b], rest);
  }

  // ---- what emulation prevention is for ---------------------------------------------------------------

  /** Discarding the inserted bytes gives back what was written. */
  lemma {:induction false} EscapeRoundTrip(zeros: nat, raw: seq<byte>)
    requires zeros <= 2
    ensures Unescape(Zeros(zeros) + Escape(zeros, raw)) == Zeros(zeros) + raw
    decreases |raw|
  {
    if raw == [] {
      UnescapeZeros(zeros);
      assert Zeros(zeros) + [] == Zeros(zeros);
    } else {
      var b, rest := raw[0], raw[1..];
      if b != 0 {
        EscapeRoundTrip(0, rest);
      } else {
        EscapeRoundTrip(if zeros == 2 then 1 else zeros + 1, rest);
      }
      EscapeStep(zeros, raw);
    }
  }

  lemma {:induction false} EscapeStep(zeros: nat, raw: seq<byte>)
    requires zeros <= 2 && raw != []
    requires var n := if raw[0] != 0 then 0 else if zeros == 2 then 1 else zeros + 1;
             Unescape(Zeros(n) + Escape(n, raw[1..])) == Zeros(n) + raw[1..]
    ensures Unescape(Zeros(zeros) + Escape(zeros, raw)) == Zeros(zeros) + raw
  {
    hide Unescape;
    var b, rest := raw[0], raw[1..];
    assert raw == [b] + rest;
    if zeros == 2 && b <= 3 {
      InsertedIsDropped(b, rest);
    } else if b == 0 {
      assert Zeros(zeros) + ([b] + Escape(zeros + 1, rest)) == Zeros(zeros + 1) + Escape(zeros + 1, rest);
      assert Zeros(zeros + 1) + rest == Zeros(zeros) + raw;
    } else {
      UnescapePlain(Zeros(zeros), b, Escape(0, rest));
      NoZeros(Escape(0, rest));
      NoZeros(rest);
      Associate(Zeros(zeros), [b], Escape(0, rest));
      Associate(Zeros(zeros), [b], rest);
    }
  }

  lemma {:induction false} NoZeros(s: seq<byte>)
    ensures Zeros(0) + s == s
  {
  }

  lemma {:induction false} InsertedIsDropped(b: byte, rest: seq<byte>)
    requires b <= 3
    requires var n := if b == 0 then 1 else 0; Unescape(Zeros(n) + Escape(n, rest)) == Zeros(n) + rest
    ensures Unescape(Zeros(2) + Escape(2, [b] + rest)) == Zeros(2) + ([b] + rest)
  {
    hide Unescape;
    var n := if b == 0 then 1 else 0;
    var tail := [b] + Escape(n, rest);
    Inserts(b, rest);
    hide Escape;
    DropsThird(tail);
    assert Unescape(tail) == [b] + rest by {
      if b == 0 {
        assert tail == Zeros(1) + Escape(1, rest);
      } else {
        UnescapePlain([], b, Escape(0, rest));
        assert [] + [b] + Escape(0, rest) == tail;
        NoZeros(Escape(0, rest));
        NoZeros(rest);
      }
    }
    assert [0, 0] + ([b] + rest) == Zeros(2) + ([b] + rest);
  }

  lemma {:induction false} Inserts(b: byte, rest: seq<byte>)
    requires b <= 3
    ensures Zeros(2) + Escape(2, [b] + rest) == [0, 0, 3] + ([b] + Escape(if b == 0 then 1 else 0, rest))
  {
    assert ([b] + rest)[1..] == rest;
  }

  lemma {:induction false} DropsThird(tail: seq<byte>)
    ensures Unescape([0, 0, 3] + tail) == [0, 0] + Unescape(tail)
  {
    assert ([0, 0, 3] + tail)[3..] == tail;
  }

  lemma {:induction false} UnescapeZeros(n: nat)
    ensures Unescape(Zeros(n)) == Zeros(n)
  {
    if n > 0 {
      assert Zeros(n)[1..] == Zeros(n - 1);
      UnescapeZeros(n - 1);
      assert [0] + Zeros(n - 1) == Zeros(n);
    }
  }

  /** At most two zeros before a byte that is neither 00 nor an inserted 03 are kept as they are. */
  lemma {:induction false} UnescapePlain(z: seq<byte>, b: byte, rest: seq<byte>)
    requires |z| <= 2 && (forall i :: 0 <= i < |z| ==> z[i] == 0) && b != 0 && (|z| == 2 ==> b != 3)
    ensures Unescape(z + [b] + rest) == z + [b] + Unescape(rest)
    decreases |z|
  {
    var s := z + [b] + rest;
    if z == [] {
      assert s == [b] + rest && s[1..] == rest;
    } else {
      assert s[1..] == z[1..] + [b] + rest;
      UnescapePlain(z[1..], b, rest);
      assert s[0] == 0 && s[|z|] == b;
      assert z == [0] + z[1..];
    }
  }

  /** No 00 00 followed by a byte of at most `top` occurs. */
  ghost predicate Free(s: seq<byte>, top: nat) {
    forall i :: 0 <= i && i + 2 < |s| ==> !(s[i] == 0 && s[i + 1] == 0 && s[i + 2] <= top)
  }

  /** The output contains none of 00 00 00, 00 00 01 and 00 00 02. */
  lemma {:induction false} EscapedIsFree(zeros: nat, raw: seq<byte>)
    requires zeros <= 2
    ensures Free(Zeros(zeros) + Escape(zeros, raw), 2)
    decreases |raw|
  {
    if raw != [] {
      var b, rest := raw[0], raw[1..];
      if zeros == 2 && b <= 3 {
        var n := if b == 0 then 1 else 0;
        EscapedIsFree(n, rest);
        var s := Zeros(2) + ([3, b] + Escape(n, rest));
        FreeAfter(s, 3, if b == 0 then Zeros(1) + Escape(1, rest) else Zeros(0) + Escape(0, rest), b);
      } else if b == 0 {
        EscapedIsFree(zeros + 1, rest);
        assert Zeros(zeros) + ([b] + Escape(zeros + 1, rest)) == Zeros(zeros + 1) + Escape(zeros + 1, rest);
      } else {
        EscapedIsFree(0, rest);
        FreeAfter(Zeros(zeros) + ([b] + Escape(0, rest)), zeros, Zeros(0) + Escape(0, rest), b);
      }
    }
  }

  /** A non-zero byte at `k` after at most two zeros, and a free tail behind it. */
  lemma {:induction false} FreeAfter(s: seq<byte>, k: nat, tail: seq<byte>, b: byte)
    requires k < |s| && Free(tail, 2)
    requires s[k] == b
    requires if b == 0 then k == 3 && s[2] == 3 && s[3..] == tail
             else s[k + 1..] == tail && ((k <= 2 && (k == 2 ==> b > 2)) || (k == 3 && s[2] == 3))
    ensures Free(s, 2)
  {
    forall i | 0 <= i && i + 2 < |s|
      ensures !(s[i] == 0 && s[i + 1] == 0 && s[i + 2] <= 2)
    {
      if b != 0 && i >= k + 1 {
        assert s[i] == tail[i - k - 1] && s[i + 1] == tail[i - k] && s[i + 2] == tail[i - k + 1];
      } else if b == 0 && i >= 3 {
        assert s[i] == tail[i - 3] && s[i + 1] == tail[i - 2] && s[i + 2] == tail[i - 1];
      }
    }
  }

  /** A list of written units, as header and payload. */
  function File(nals: seq<(byte, seq<byte>)>): seq<byte> {
    if nals == [] then [] else Written(nals[0].0, nals[0].1) + File(nals[1..])
  }

  /** Every file of written units is split back into them, and each gives back its header and payload. */
  lemma {:induction false} WrittenIsRecovered(nals: seq<(byte, seq<byte>)>)
    ensures var units := Units(File(nals));
            && |units| == |nals|
            && forall i :: 0 <= i < |nals| ==> Unescape(units[i].data) == [nals[i].0] + nals[i].1
    decreases |nals|
  {
    hide Units, Escape, Unescape;
    if nals == [] {
      UnitsAtEnd([]);
      assert File(nals)[0..] == [];
    } else {
      var raw := [nals[0].0] + nals[0].1;
      var nal := Escape(0, raw);
      EscapedIsFree(0, raw);
      EscapeRoundTrip(0, raw);
      assert Zeros(0) + nal == nal && Zeros(0) + raw == raw;
      var rest := File(nals[1..]);
      FileStarts(nals[1..]);
      WrittenIsRecovered(nals[1..]);
      UnitThenRest(Unit(true, nal), rest);
      assert Units(File(nals)) == [NalOf(nal)] + Units(rest);
    }
  }

  lemma {:induction false} FileStarts(nals: seq<(byte, seq<byte>)>)
    ensures File(nals) == [] || StartCode(true) <= File(nals)
  {
  }

  // ---- written files by the standard ---------------------------------------------------------------------

  /** The last byte of a unit's header and payload. */
  function LastByte(nal: (byte, seq<byte>)): byte {
    if nal.1 == [] then nal.0 else nal.1[|nal.1| - 1]
  }

  /** No unit but the last ends in a zero byte. */
  predicate EndInData(nals: seq<(byte, seq<byte>)>) {
    |nals| <= 1 || (LastByte(nals[0]) != 0 && EndInData(nals[1..]))
  }

  lemma {:induction false} EscapeKeepsEnd(zeros: nat, raw: seq<byte>)
    requires raw != []
    ensures Escape(zeros, raw) != [] && Escape(zeros, raw)[|Escape(zeros, raw)| - 1] == raw[|raw| - 1]
    decreases |raw|
  {
    var b, rest := raw[0], raw[1..];
    if rest == [] {
      assert Escape(0, rest) == [] && Escape(1, rest) == [] && Escape(zeros + 1, rest) == [];
    } else {
      var n := if b == 0 then (if zeros == 2 then 1 else zeros + 1) else 0;
      EscapeKeepsEnd(n, rest);
      assert raw[|raw| - 1] == rest[|rest| - 1];
    }
  }

  /** A clean unit without 00 00 00 between a start code and the next one, or the end. */
  lemma {:induction false} TidyUnit(nal: seq<byte>, rest: seq<byte>)
    requires Fits(Unit(true, nal), rest) && !HasZeros(nal)
    ensures Tidy(StartCode(true) + nal + rest) <==> (rest == [] || nal[|nal| - 1] != 0) && Tidy(rest)
  {
    var u, body := Unit(true, nal), nal + rest;
    var s := StartCode(true) + nal + rest;
    hide Tidy, HasZeros, Clean;
    Associate(StartCode(true), nal, rest);
    CodeThenMore(true, body);
    forall i | 0 <= i < |nal| ensures CodeLength(body[i..]) == 0 {
      NoCodeInside(u, rest, i);
    }
    assert body[|nal|..] == rest && body[..|nal|] == nal;
    if rest != [] {
      RestIsCode(u, rest);
    }
    hide CodeLength;
    NextCodeIs(body, |nal|);
    assert s[0..] == s && s[4..] == body;
    NextCodeIs(s, 0);
    TidyStep(s);
  }

  /** The standard finds the units of a written file too, exactly if none but the last ends in a zero byte: the writer does
    * not add the 03 that section 7.4.1 of ITU-T H.264 asks for behind such a unit. */
  lemma {:induction false} WrittenByStandard(nals: seq<(byte, seq<byte>)>)
    ensures Standard(File(nals)) == Units(File(nals)) <==> EndInData(nals)
  {
    StandardIffTidy(File(nals));
    WrittenIsTidy(nals);
  }

  lemma {:induction false} WrittenIsTidy(nals: seq<(byte, seq<byte>)>)
    ensures Tidy(File(nals)) <==> EndInData(nals)
    decreases |nals|
  {
    hide Tidy, Escape, HasZeros;
    if nals == [] {
      NothingEither(File(nals));
    } else {
      var raw, rest := [nals[0].0] + nals[0].1, File(nals[1..]);
      var nal := Escape(0, raw);
      EscapedIsFree(0, raw);
      EscapeKeepsEnd(0, raw);
      assert Zeros(0) + nal == nal;
      FileStarts(nals[1..]);
      WrittenIsTidy(nals[1..]);
      FreeHasNoZeros(nal);
      TidyUnit(nal, rest);
      assert raw[|raw| - 1] == LastByte(nals[0]);
      assert rest == [] <==> |nals| == 1;
    }
  }

  lemma {:induction false} FreeHasNoZeros(s: seq<byte>)
    requires Free(s, 2)
    ensures !HasZeros(s) && Clean(s)
  {
  }
}
