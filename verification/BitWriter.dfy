/**
  * The bit writer of tools/gen_test_h264.cpp with its Exp-Golomb codes (section 9.1 of ITU-T H.264).
  */
module BitWriter {
  import opened Bytes

  type bit = x: int | 0 <= x < 2

  // ---- bit strings -----------------------------------------------------------------------------------

  /** The low `n` bits of a two's complement number, most significant first. */
  function BitString(v: int, n: nat): (r: seq<bit>)
    ensures |r| == n
    decreases n
  {
    if n == 0 then [] else BitString(v / 2, n - 1) + [v % 2]
  }

  /** The number a bit string writes, most significant bit first. */
  function Number(bits: seq<bit>): nat {
    if bits == [] then 0 else 2 * Number(bits[..|bits| - 1]) + bits[|bits| - 1]
  }

  function Repeat(b: bit, n: nat): (r: seq<bit>)
    ensures |r| == n
  {
    seq(n, _ => b)
  }

  lemma {:induction false} NumberOfBitString(v: nat, n: nat)
    requires v < Pow2(n)
    ensures Number(BitString(v, n)) == v
  {
    if n > 0 {
      NumberOfBitString(v / 2, n - 1);
      assert BitString(v, n)[..n - 1] == BitString(v / 2, n - 1);
    }
  }

  /** `v >> i` */
  function ShiftRight(v: int, i: nat): int {
    if i == 0 then v else ShiftRight(v, i - 1) / 2
  }

  // ---- Exp-Golomb codes ------------------------------------------------------------------------------

  /** The position of the leading one bit. */
  function Log2(v: nat): nat
    requires v > 0
  {
    if v == 1 then 0 else 1 + Log2(v / 2)
  }

  lemma {:induction false} Log2Bounds(v: nat)
    requires v > 0
    ensures Pow2(Log2(v)) <= v < Pow2(Log2(v) + 1)
  {
    if v > 1 {
      Log2Bounds(v / 2);
    }
  }

  /** The code of section 9.1 for a code number: as many zeros as the rest has bits after its leading one. */
  function UeCode(codeNum: nat): seq<bit> {
    var k := Log2(codeNum + 1);
    Repeat(0, k) + BitString(codeNum + 1, k + 1)
  }

  /** Section 9.1: count leading zeros up to the first one bit, then read as many bits again. */
  function ReadUe(bits: seq<bit>): Option<(nat, seq<bit>)> {
    var k := LeadingZeros(bits);
    if |bits| < 2 * k + 1 then None
    else Some((Pow2(k) - 1 + Number(bits[k + 1..2 * k + 1]), bits[2 * k + 1..]))
  }

  function LeadingZeros(bits: seq<bit>): (k: nat)
    ensures k <= |bits|
  {
    if bits == [] || bits[0] == 1 then 0 else 1 + LeadingZeros(bits[1..])
  }

  lemma {:induction false} LeadingZerosOf(k: nat, rest: seq<bit>)
    requires rest != [] && rest[0] == 1
    ensures LeadingZeros(Repeat(0, k) + rest) == k
  {
    if k == 0 {
      assert Repeat(0, 0) + rest == rest;
    } else {
      assert (Repeat(0, k) + rest)[1..] == Repeat(0, k - 1) + rest;
      LeadingZerosOf(k - 1, rest);
    }
  }

  /** The leading bit of a number of exactly n + 1 bits is one, and the others write what is left. */
  lemma {:induction false} LeadingOne(v: nat, n: nat)
    requires Pow2(n) <= v < Pow2(n + 1)
    ensures BitString(v, n + 1)[0] == 1
    ensures Number(BitString(v, n + 1)[1..]) == v - Pow2(n)
    decreases n
  {
    if n == 0 {
      assert BitString(v / 2, 0) == [];
      assert BitString(v, 1)[1..] == [];
    } else {
      LeadingOne(v / 2, n - 1);
      var b, c := BitString(v, n + 1), BitString(v / 2, n);
      assert b[1..] == c[1..] + [v % 2];
      assert b[1..][..n - 1] == c[1..];
    }
  }

  /** Every code is read back, whatever follows it; so codes concatenate without ambiguity. */
  lemma {:induction false} UeRoundTrip(codeNum: nat, rest: seq<bit>)
    ensures ReadUe(UeCode(codeNum) + rest) == Some((codeNum, rest))
  {
    var v := codeNum + 1;
    var k := Log2(v);
    Log2Bounds(v);
    LeadingOne(v, k);
    var tail := BitString(v, k + 1) + rest;
    LeadingZerosOf(k, tail);
    var s := UeCode(codeNum) + rest;
    assert s == Repeat(0, k) + tail;
    assert s[k + 1..2 * k + 1] == BitString(v, k + 1)[1..];
    assert s[2 * k + 1..] == rest;
  }

  const UINT_MAX: nat := 0xFFFF_FFFF

  /** What `write_ue` writes for an unsigned 32-bit argument: the addition of one wraps around. */
  function UeBits(value: nat): seq<bit>
    requires value <= UINT_MAX
  {
    if value == UINT_MAX then [0] else UeCode(value)
  }

  lemma {:induction false} UeBitsAre(value: nat)
    requires value <= UINT_MAX
    ensures var v := (value + 1) % (UINT_MAX + 1);
            var k := if v == 0 then 0 else Log2(v);
            UeBits(value) == Repeat(0, k) + BitString(v, k + 1)
  {
    if value == UINT_MAX {
      ZeroBit();
    }
    hide BitString, Repeat;
  }

  lemma {:induction false} ZeroBit()
    ensures Repeat(0, 0) + BitString(0, 1) == [0]
  {
  }

  /** `write_ue` writes a code that is read back as its argument exactly if the argument is not the greatest. */
  lemma {:induction false} UeBitsReadBack(value: nat)
    requires value <= UINT_MAX
    ensures (forall rest :: ReadUe(UeBits(value) + rest) == Some((value, rest))) <==> value != UINT_MAX
  {
    if value == UINT_MAX {
      assert [0] + [] == [0] && [0][1..] == [];
      assert LeadingZeros([0]) == 1;
      assert ReadUe(UeBits(value) + []) == None;
    } else {
      forall rest
        ensures ReadUe(UeBits(value) + rest) == Some((value, rest))
      {
        UeRoundTrip(value, rest);
      }
    }
  }

  /** The code number `write_se` chooses (inverse of section 9.1.1). */
  function SeCodeNum(value: int): nat {
    if value <= 0 then -value * 2 else value * 2 - 1
  }

  /** Table 9-3: code number k stands for (-1)^(k+1) Ceil(k / 2). */
  function SeValue(k: nat): int {
    if k % 2 == 0 then -(k / 2) else (k + 1) / 2
  }

  lemma {:induction false} SeIsBijection(value: int, k: nat)
    ensures SeValue(SeCodeNum(value)) == value
    ensures SeCodeNum(SeValue(k)) == k
  {
  }

  lemma {:induction false} SeRoundTrip(value: int, rest: seq<bit>)
    ensures var r := ReadUe(UeCode(SeCodeNum(value)) + rest);
            r.Some? && SeValue(r.value.0) == value && r.value.1 == rest
  {
    UeRoundTrip(SeCodeNum(value), rest);
    SeIsBijection(value, 0);
  }

  // ---- the writer ------------------------------------------------------------------------------------

  /** The bits of a byte string. */
  function ByteBits(bytes: seq<byte>): (r: seq<bit>)
    ensures |r| == 8 * |bytes|
  {
    if bytes == [] then [] else ByteBits(bytes[..|bytes| - 1]) + BitString(bytes[|bytes| - 1], 8)
  }

  lemma {:induction false} ByteBitsSnoc(bytes: seq<byte>, b: byte)
    ensures ByteBits(bytes + [b]) == ByteBits(bytes) + BitString(b, 8)
  {
    assert (bytes + [b])[..|bytes|] == bytes;
  }

  lemma {:induction false} BitPushed(bytes: seq<byte>, buf: nat, n: nat, b: bit)
    ensures ByteBits(bytes) + BitString(2 * buf + b, n + 1) == ByteBits(bytes) + BitString(buf, n) + [b]
  {
    hide ByteBits;
    assert BitString(2 * buf + b, n + 1) == BitString(buf, n) + [b];
    Associate(ByteBits(bytes), BitString(buf, n), [b]);
  }

  lemma {:induction false} ByteFull(bytes: seq<byte>, buf: byte)
    ensures ByteBits(bytes + [buf]) + BitString(0, 0) == ByteBits(bytes) + BitString(buf, 8)
  {
    ByteBitsSnoc(bytes, buf);
    assert ByteBits(bytes + [buf]) + [] == ByteBits(bytes + [buf]);
  }

  class BitWriter {
    var bytes: seq<byte>
    var buf: byte
    var bitsInBuf: nat

    ghost predicate Valid()
      reads this
    {
      bitsInBuf < 8 && buf < Pow2(bitsInBuf)
    }

    /** Everything written so far. */
    ghost function Bits(): seq<bit>
      reads this
    {
      ByteBits(bytes) + BitString(buf, bitsInBuf)
    }

    constructor ()
      ensures Valid() && Bits() == []
    {
      bytes, buf, bitsInBuf := [], 0, 0;
    }

    method Clear()
      modifies this
      ensures Valid() && Bits() == []
    {
      bytes, buf, bitsInBuf := [], 0, 0;
    }

    method WriteBit(b: bit)
      requires Valid()
      modifies this
      ensures Valid() && Bits() == old(Bits()) + [b]
      ensures bitsInBuf == (old(bitsInBuf) + 1) % 8
      ensures bitsInBuf != 0 ==> buf == 2 * old(buf) + b
      ensures bytes == if old(bitsInBuf) == 7 then old(bytes) + [2 * old(buf) + b] else old(bytes)
    {
      hide ByteBits, BitString;
      Room(bitsInBuf, buf);
      BitPushed(bytes, buf, bitsInBuf, b);
      buf := 2 * buf + b;
      bitsInBuf := bitsInBuf + 1;
      if bitsInBuf == 8 {
        ByteFull(bytes, buf);
        bytes := bytes + [buf];
        buf, bitsInBuf := 0, 0;
      }
    }

    /** Write the low `n` bits of `value`, most significant first. */
    method WriteBits(value: int, n: nat)
      requires Valid()
      modifies this
      ensures Valid() && Bits() == old(Bits()) + BitString(value, n)
    {
      hide ByteBits;
      ghost var before := Bits();
      assert before + [] == before;
      var i := n as int - 1;
      while i >= 0
        invariant -1 <= i < n && Valid()
        invariant Bits() == before + BitString(ShiftRight(value, i + 1), n - 1 - i)
      {
        WriteBit(ShiftRight(value, i) % 2);
        Associate(before, BitString(ShiftRight(value, i + 1), n - 1 - i), [ShiftRight(value, i) % 2]);
        i := i - 1;
      }
    }

    /** Unsigned Exp-Golomb code of a 32-bit argument. */
    method WriteUe(value: nat)
      requires Valid() && value <= UINT_MAX
      modifies this
      ensures Valid() && Bits() == old(Bits()) + UeBits(value)
    {
      hide ByteBits, BitString, UeBits;
      var v := (value + 1) % (UINT_MAX + 1);
      var leadingZeros := CountLeadingZeros(v);
      ghost var before := Bits();
      assert before + Repeat(0, 0) == before;
      for i := 0 to leadingZeros
        invariant Valid() && Bits() == before + Repeat(0, i)
      {
        WriteBit(0);
        assert Repeat(0, i) + [0] == Repeat(0, i + 1);
        Associate(before, Repeat(0, i), [0]);
      }
      WriteBits(v, leadingZeros + 1);
      Associate(before, Repeat(0, leadingZeros), BitString(v, leadingZeros + 1));
      UeBitsAre(value);
    }

    /** The number of zeros before the code: how often the number can be halved before nothing is left. */
    static method CountLeadingZeros(v: nat) returns (n: nat)
      ensures n == if v == 0 then 0 else Log2(v)
    {
      n := 0;
      var tmp: nat := v / 2;
      while tmp != 0
        invariant v > 0 ==> tmp < v && (if tmp == 0 then n == Log2(v) else n + 1 + Log2(tmp) == Log2(v))
        invariant v == 0 ==> tmp == 0 && n == 0
        decreases tmp
      {
        n := n + 1;
        tmp := tmp / 2;
      }
    }

    /** Signed Exp-Golomb code. */
    method WriteSe(value: int)
      requires Valid() && -0x7FFF_FFFF <= value <= 0x7FFF_FFFF
      modifies this
      ensures Valid() && Bits() == old(Bits()) + UeCode(SeCodeNum(value))
    {
      var codeNum: nat;
      if value <= 0 {
        codeNum := -value * 2;
      } else {
        codeNum := value * 2 - 1;
      }
      WriteUe(codeNum);
    }

    /** A one bit, then zeros up to the next byte boundary. */
    method Flush()
      requires Valid()
      modifies this
      ensures Valid() && bitsInBuf == 0
      ensures exists k :: 0 <= k < 8 && Bits() == old(Bits()) + [1] + Repeat(0, k)
      ensures Bits() == ByteBits(bytes)
      ensures bytes != [] && bytes[|bytes| - 1] != 0
    {
      hide ByteBits;
      ghost var before := Bits();
      WriteBit(1);
      ghost var k := 0;
      ghost var n0 := bitsInBuf;
      assert before + [1] + Repeat(0, 0) == before + [1];
      while bitsInBuf != 0
        invariant Valid() && Bits() == before + [1] + Repeat(0, k)
        invariant k < 8 && n0 <= 7 && (n0 == 0 ==> k == 0)
        invariant bitsInBuf != 0 ==> buf > 0 && bitsInBuf == n0 + k
        invariant bitsInBuf == 0 && n0 > 0 ==> k == 8 - n0
        invariant bitsInBuf == 0 ==> bytes != [] && bytes[|bytes| - 1] != 0
        decreases if bitsInBuf == 0 then 0 else 8 - bitsInBuf
      {
        WriteBit(0);
        assert Repeat(0, k) + [0] == Repeat(0, k + 1);
        Associate(before + [1], Repeat(0, k), [0]);
        k := k + 1;
      }
      assert ByteBits(bytes) + [] == ByteBits(bytes);
    }
  }

  lemma {:induction false} Room(n: nat, buf: nat)
    requires n < 8 && buf < Pow2(n)
    ensures 2 * buf + 1 < 256 && 2 * buf + 1 < Pow2(n + 1)
  {
    assert Pow2(1) == 2 && Pow2(2) == 4 && Pow2(3) == 8 && Pow2(4) == 16 && Pow2(5) == 32 && Pow2(6) == 64 && Pow2(7) == 128;
  }
}
