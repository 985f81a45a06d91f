/** `Base64Encode` of src/ws/sha1.cpp (section 4 of RFC 4648). */
module Base64 {
  import opened Bytes

  const PAD: byte := 61

  /** The digit for a 6-bit value: A to Z, a to z, 0 to 9, '+', '/'. */
  function Digit(v: nat): (d: byte)
    requires v < 64
    ensures d != PAD
  {
    if v < 26 then 65 + v else if v < 52 then 71 + v else if v < 62 then v - 4 else if v == 62 then 43 else 47
  }

  /** The value of a digit. */
  function Value(d: byte): Option<nat> {
    if 65 <= d <= 90 then Some((d - 65) as nat)
    else if 97 <= d <= 122 then Some((d - 71) as nat)
    else if 48 <= d <= 57 then Some(d as nat + 4)
    else if d == 43 then Some(62)
    else if d == 47 then Some(63)
    else None
  }

  lemma {:induction false} DigitMeans(v: nat)
    requires v < 64
    ensures Value(Digit(v)) == Some(v)
  {
  }

  /** The 6-bit groups of 24 bits. */
  function Group(n: nat, i: nat): (g: nat)
    requires n < 0x100_0000 && i < 4
    ensures g < 64
  {
    if i == 0 then n / 262144 else if i == 1 then n / 4096 % 64 else if i == 2 then n / 64 % 64 else n % 64
  }

  /** Four digits for 24 bits. */
  function Quad(n: nat): (q: seq<byte>)
    requires n < 0x100_0000
    ensures |q| == 4
  {
    [Digit(Group(n, 0)), Digit(Group(n, 1)), Digit(Group(n, 2)), Digit(Group(n, 3))]
  }

  function Join(a: byte, b: byte, c: byte): (n: nat)
    ensures n < 0x100_0000
  {
    a as nat * 65536 + b as nat * 256 + c as nat
  }

  /** Three bytes become four digits; one or two bytes at the end are filled up with zero bits, and the digits
    * that hold nothing else are written as '='. */
  function Encoded(data: seq<byte>): seq<byte> {
    if |data| == 0 then []
    else if |data| == 1 then Quad(Join(data[0], 0, 0))[..2] + [PAD, PAD]
    else if |data| == 2 then Quad(Join(data[0], data[1], 0))[..3] + [PAD]
    else Quad(Join(data[0], data[1], data[2])) + Encoded(data[3..])
  }

  method Base64Encode(data: seq<byte>) returns (out: seq<byte>)
    ensures out == Encoded(data)
  {
    hide Encoded, Join, Group, Digit;
    out := [];
    var i := 0;
    assert data[0..] == data && [] + Encoded(data) == Encoded(data);
    while i + 2 < |data|
      invariant i <= |data| && out + Encoded(data[i..]) == Encoded(data)
      decreases |data| - i
    {
      var n := Join(data[i], data[i + 1], data[i + 2]);
      EncodedStep(data, i);
      Associate(out, Quad(n), Encoded(data[i + 3..]));
      out := out + [Digit(Group(n, 0))] + [Digit(Group(n, 1))] + [Digit(Group(n, 2))] + [Digit(Group(n, 3))];
      i := i + 3;
    }
    var rem := |data| - i;
    EncodedEnd(data[i..]);
    if rem == 1 {
      var n := Join(data[i], 0, 0);
      out := out + [Digit(Group(n, 0))] + [Digit(Group(n, 1))] + [PAD] + [PAD];
    } else if rem == 2 {
      var n := Join(data[i], data[i + 1], 0);
      out := out + [Digit(Group(n, 0))] + [Digit(Group(n, 1))] + [Digit(Group(n, 2))] + [PAD];
    }
  }

  lemma {:induction false} EncodedStep(data: seq<byte>, i: nat)
    requires i + 2 < |data|
    ensures Encoded(data[i..]) == Quad(Join(data[i], data[i + 1], data[i + 2])) + Encoded(data[i + 3..])
  {
    assert data[i..][3..] == data[i + 3..];
  }

  lemma {:induction false} EncodedEnd(rest: seq<byte>)
    requires |rest| < 3
    ensures rest == [] ==> Encoded(rest) == []
    ensures |rest| == 1 ==>
              var n := Join(rest[0], 0, 0); Encoded(rest) == [Digit(Group(n, 0)), Digit(Group(n, 1)), PAD, PAD]
    ensures |rest| == 2 ==>
              var n := Join(rest[0], rest[1], 0);
              Encoded(rest) == [Digit(Group(n, 0)), Digit(Group(n, 1)), Digit(Group(n, 2)), PAD]
  {
    hide Join, Group, Digit;
  }

  // ---- decoding, by the standard -------------------------------------------------------------------------

  /** The bytes that a text stands for, if it is one. */
  function Decoded(text: seq<byte>): Option<seq<byte>> {
    if text == [] then Some([])
    else if |text| < 4 then None
    else
      match (Value(text[0]), Value(text[1]), Value(text[2]), Value(text[3]), Decoded(text[4..]))
      case (Some(a), Some(b), None, None, Some(more)) =>
        if text[2] == PAD && text[3] == PAD && more == [] then Some(Split(a, b, 0, 0)[..1]) else None
      case (Some(a), Some(b), Some(c), None, Some(more)) =>
        if text[3] == PAD && more == [] then Some(Split(a, b, c, 0)[..2]) else None
      case (Some(a), Some(b), Some(c), Some(d), Some(more)) => Some(Split(a, b, c, d) + more)
      case _ => None
  }

  /** The three bytes in four 6-bit values. */
  function Split(a: nat, b: nat, c: nat, d: nat): (r: seq<byte>)
    ensures |r| == 3
  {
    [(a * 4 + b / 16) % 256, (b * 16 + c / 4) % 256, (c * 64 + d) % 256]
  }

  lemma {:induction false} QuadSplits(x: byte, y: byte, z: byte)
    ensures var n := Join(x, y, z); Split(Group(n, 0), Group(n, 1), Group(n, 2), Group(n, 3)) == [x, y, z]
  {
    Sextets(x, y, z);
    hide Join, Group;
    Together(x, y, z);
  }

  lemma {:induction false} Together(x: byte, y: byte, z: byte)
    ensures ((x / 4) as nat * 4 + ((x % 4) as nat * 16 + y / 16) / 16) % 256 == x
    ensures (((x % 4) as nat * 16 + y / 16) * 16 + ((y % 16) as nat * 4 + z / 64) / 4) % 256 == y
    ensures (((y % 16) as nat * 4 + z / 64) * 64 + z % 64) % 256 == z
  {
    assert ((x % 4) as nat * 16 + y / 16) / 16 == x % 4;
    assert ((y % 16) as nat * 4 + z / 64) / 4 == y % 16;
  }

  /** How the 6-bit groups lie in the three bytes. */
  lemma {:induction false} Sextets(x: byte, y: byte, z: byte)
    ensures var n := Join(x, y, z);
            && Group(n, 0) == x / 4
            && Group(n, 1) == (x % 4) as nat * 16 + y / 16
            && Group(n, 2) == (y % 16) as nat * 4 + z / 64
            && Group(n, 3) == z % 64
  {
    var low, mid: nat := (y % 16) as nat * 4 + z / 64, (x % 4) as nat * 16 + y / 16;
    By64(x as nat * 1024 + y as nat * 4 + z / 64, z % 64);
    By64(x as nat * 16 + y / 16, low);
    By64((x / 4) as nat, mid);
    By4096(x as nat * 16 + y / 16, (y % 16) as nat * 256 + z);
    By262144((x / 4) as nat, (x % 4) as nat * 65536 + y as nat * 256 + z);
  }

  lemma {:induction false} By64(q: nat, r: nat)
    requires r < 64
    ensures (q * 64 + r) / 64 == q && (q * 64 + r) % 64 == r
  {
  }

  lemma {:induction false} By4096(q: nat, r: nat)
    requires r < 4096
    ensures (q * 4096 + r) / 4096 == q
  {
  }

  lemma {:induction false} By262144(q: nat, r: nat)
    requires r < 262144
    ensures (q * 262144 + r) / 262144 == q
  {
  }

  /** A quad followed by anything is decoded to its three bytes; so are quads cut off and padded. */
  lemma {:induction false} QuadDecoded(x: byte, y: byte, z: byte, more: seq<byte>)
    requires Decoded(more).Some?
    ensures Decoded(Quad(Join(x, y, z)) + more) == Some([x, y, z] + Decoded(more).value)
    ensures more == [] ==> Decoded(Quad(Join(x, y, z))[..2] + [PAD, PAD]) == Some(Split(Group(Join(x, y, z), 0), Group(Join(x, y, z), 1), 0, 0)[..1])
    ensures more == [] ==> Decoded(Quad(Join(x, y, z))[..3] + [PAD]) ==
                           Some(Split(Group(Join(x, y, z), 0), Group(Join(x, y, z), 1), Group(Join(x, y, z), 2), 0)[..2])
  {
    var n := Join(x, y, z);
    DigitMeans(Group(n, 0));
    DigitMeans(Group(n, 1));
    DigitMeans(Group(n, 2));
    DigitMeans(Group(n, 3));
    QuadSplits(x, y, z);
    hide Digit, Group, Join, Split;
    assert Value(PAD) == None;
    assert (Quad(n) + more)[4..] == more;
    assert (Quad(n)[..2] + [PAD, PAD])[4..] == [] && (Quad(n)[..3] + [PAD])[4..] == [];
  }

  /** What was encoded is decoded, with padding for what does not fill three bytes. */
  lemma {:induction false} Base64RoundTrip(data: seq<byte>)
    ensures Decoded(Encoded(data)) == Some(data)
    ensures |Encoded(data)| == (|data| + 2) / 3 * 4
  {
    hide Decoded, Quad, Join, Group, Split;
    NothingDecoded();
    if |data| == 1 {
      QuadDecoded(data[0], 0, 0, []);
      QuadSplits(data[0], 0, 0);
      PadGroups(data[0], 0);
      assert [data[0], 0, 0][..1] == data;
    } else if |data| == 2 {
      QuadDecoded(data[0], data[1], 0, []);
      QuadSplits(data[0], data[1], 0);
      PadGroups(data[0], data[1]);
      assert [data[0], data[1], 0][..2] == data;
    } else if |data| > 2 {
      Base64RoundTrip(data[3..]);
      QuadDecoded(data[0], data[1], data[2], Encoded(data[3..]));
      assert [data[0], data[1], data[2]] + data[3..] == data;
    }
  }

  lemma {:induction false} NothingDecoded()
    ensures Decoded([]) == Some([])
  {
  }

  /** The groups that are cut off are zero. */
  lemma {:induction false} PadGroups(x: byte, y: byte)
    ensures Group(Join(x, y, 0), 3) == 0
    ensures y == 0 ==> Group(Join(x, y, 0), 2) == 0
  {
    Sextets(x, y, 0);
  }
}
