/**
  * SHA-1 of src/ws/sha1.cpp: input is buffered in 64-byte blocks and compressed as it arrives. It is
  * proved equal to the one-shot definition of RFC 3174 on the concatenation of everything fed in.
  */
module Sha1 {
  import opened Bytes

  const WORD_SIZE: nat := 0x1_0000_0000

  type Word = x: int | 0 <= x < 0x1_0000_0000

  datatype Digest = Digest(a: Word, b: Word, c: Word, d: Word, e: Word)

  // ---- operations on words (section 3) -------------------------------------------------------------

  function And(x: Word, y: Word): Word { ((x as bv32) & (y as bv32)) as Word }

  function Or(x: Word, y: Word): Word { ((x as bv32) | (y as bv32)) as Word }

  function Xor(x: Word, y: Word): Word { ((x as bv32) ^ (y as bv32)) as Word }

  function Not(x: Word): Word { (!(x as bv32)) as Word }

  function ShiftLeft(x: Word, n: nat): Word
    requires n <= 32
  {
    x * Pow2(n) % WORD_SIZE
  }

  function ShiftRight(x: Word, n: nat): Word
    requires n <= 32
  {
    hide Pow2;
    Shrinks(x, Pow2(n));
    x / Pow2(n)
  }

  lemma {:induction false} Shrinks(x: nat, p: nat)
    requires p > 0
    ensures x / p <= x
  {
    var q := x / p;
    assert x == q * p + x % p;
    MultiplyGrows(q, 1, p);
  }

  /** Addition modulo 2^32. */
  function Add(x: Word, y: Word): Word {
    (x + y) % WORD_SIZE
  }

  /** The circular shift S^n. */
  function LeftRotate(x: Word, n: nat): Word
    requires n <= 32
  {
    Or(ShiftLeft(x, n), ShiftRight(x, 32 - n))
  }

  // ---- the definition of RFC 3174 -----------------------------------------------------------------

  const INITIAL: Digest := Digest(0x67452301, 0xEFCDAB89, 0x98BADCFE, 0x10325476, 0xC3D2E1F0)

  /** Four bytes as a word, most significant first (section 2). */
  function WordAt(block: seq<byte>, t: nat): Word
    requires 4 * t + 3 < |block|
  {
    ((block[4 * t] as int * 256 + block[4 * t + 1]) * 256 + block[4 * t + 2]) * 256 + block[4 * t + 3]
  }

  /** W(t) of section 6.1, steps a and b. */
  function W(block: seq<byte>, t: nat): Word
    requires |block| == 64
  {
    if t < 16 then WordAt(block, t)
    else LeftRotate(Xor(Xor(Xor(W(block, t - 3), W(block, t - 8)), W(block, t - 14)), W(block, t - 16)), 1)
  }

  /** The 80 words W(0) to W(79). */
  function Schedule(block: seq<byte>): (ws: seq<Word>)
    requires |block| == 64
    ensures |ws| == 80
  {
    seq(80, t requires 0 <= t < 80 => W(block, t))
  }

  /** The function f(t; B, C, D) of section 5. */
  function F(t: nat, b: Word, c: Word, d: Word): Word {
    if t < 20 then Or(And(b, c), And(Not(b), d))
    else if t < 40 then Xor(Xor(b, c), d)
    else if t < 60 then Or(Or(And(b, c), And(b, d)), And(c, d))
    else Xor(Xor(b, c), d)
  }

  /** The constant K(t) of section 5. */
  function K(t: nat): Word {
    if t < 20 then 0x5A827999 else if t < 40 then 0x6ED9EBA1 else if t < 60 then 0x8F1BBCDC else 0xCA62C1D6
  }

  /** The registers A to E before step t of section 6.1, step d. */
  function Rounds(h: Digest, ws: seq<Word>, t: nat): Digest
    requires t <= |ws|
  {
    if t == 0 then h
    else
      var r := Rounds(h, ws, t - 1);
      Next(r, F(t - 1, r.b, r.c, r.d), ws[t - 1], K(t - 1))
  }

  /** The five assignments of step d, with TEMP = S^5(A) + f + E + W + K. */
  function Next(r: Digest, f: Word, w: Word, k: Word): Digest {
    Digest(Add(Add(Add(Add(LeftRotate(r.a, 5), f), r.e), w), k), r.a, LeftRotate(r.b, 30), r.c, r.d)
  }

  function Compress(h: Digest, block: seq<byte>): Digest
    requires |block| == 64
  {
    var r := Rounds(h, Schedule(block), 80);
    Digest(Add(h.a, r.a), Add(h.b, r.b), Add(h.c, r.c), Add(h.d, r.d), Add(h.e, r.e))
  }

  /** The bytes of `m` that fill complete blocks, and those left over. */
  function Full(m: seq<byte>): (r: seq<byte>)
    ensures |r| % 64 == 0
  {
    m[..|m| / 64 * 64]
  }

  function Tail(m: seq<byte>): (r: seq<byte>)
    ensures |r| == |m| % 64
  {
    m[|m| / 64 * 64..]
  }

  /** All complete blocks of `m`, one after another. */
  function Blocks(m: seq<byte>): Digest {
    if |m| < 64 then INITIAL
    else
      var n := (|m| / 64 - 1) * 64;
      Compress(Blocks(m[..n]), m[n..n + 64])
  }

  /** The number of zero bytes that leave exactly eight free in the last block. */
  function PadLength(n: nat): (z: nat)
    ensures z < 64 && (n + 1 + z) % 64 == 56
  {
    if n % 64 < 56 then 55 - n % 64 else 119 - n % 64
  }

  const LENGTH_FIELD: nat := 8

  function BitLength(n: nat): nat {
    (n * 8) % 0x1_0000_0000_0000_0000
  }

  /** Section 4: a one bit, zeros, and the length in bits modulo 2^64. */
  function Padded(m: seq<byte>): (r: seq<byte>)
    ensures |r| % 64 == 0
  {
    var z := PadLength(|m|);
    EightMore(|m| + 1 + z);
    m + [0x80] + Zeros(z) + BigEndian(BitLength(|m|), LENGTH_FIELD)
  }

  lemma {:induction false} EightMore(n: nat)
    requires n % 64 == 56
    ensures (n + 8) % 64 == 0
  {
  }

  function WordBytes(w: Word): (r: seq<byte>)
    ensures |r| == 4
  {
    [w / 0x100_0000, (w / 0x1_0000) % 256, (w / 0x100) % 256, w % 256]
  }

  function DigestBytes(h: Digest): (r: seq<byte>)
    ensures |r| == 20
  {
    WordBytes(h.a) + WordBytes(h.b) + WordBytes(h.c) + WordBytes(h.d) + WordBytes(h.e)
  }

  /** The SHA-1 of a message. */
  function Hash(m: seq<byte>): (r: seq<byte>)
    ensures |r| == 20
  {
    DigestBytes(Blocks(Padded(m)))
  }

  lemma {:induction false} BlocksStep(m: seq<byte>, block: seq<byte>)
    requires |m| % 64 == 0 && |block| == 64
    ensures Blocks(m + block) == Compress(Blocks(m), block)
  {
    hide Compress;
    var n := (|m + block| / 64 - 1) * 64;
    assert n == |m|;
    assert (m + block)[..n] == m && (m + block)[n..n + 64] == block;
  }

  lemma {:induction false} BitLengthAdds(n: nat, k: nat)
    ensures BitLength(n + k) == (BitLength(n) + k * 8) % 0x1_0000_0000_0000_0000
  {
  }

  /** After the one bit and `k` zero bytes the block is ready for the length exactly after the last of them. */
  lemma {:induction false} PadStops(n: nat, k: nat)
    requires k <= PadLength(n)
    ensures (n + 1 + k) % 64 == 56 <==> k == PadLength(n)
  {
    var z := PadLength(n);
    var q, r := n / 64, n % 64;
    assert n == 64 * q + r;
    if r < 56 {
      assert n + 1 + k == 64 * q + (r + 1 + k) && r + 1 + k <= 56;
    } else if r + 1 + k < 64 {
      assert n + 1 + k == 64 * q + (r + 1 + k);
    } else {
      assert n + 1 + k == 64 * (q + 1) + (r + 1 + k - 64) && r + 1 + k - 64 <= 56;
    }
  }

  /** Splitting at a block boundary: what lies before it is full, what lies after it, if short, is the tail. */
  lemma {:induction false} SplitAtBoundary(a: seq<byte>, b: seq<byte>)
    requires |a| % 64 == 0 && |b| < 64
    ensures Full(a + b) == a && Tail(a + b) == b
  {
    assert |a| == 64 * (|a| / 64);
    assert |a + b| / 64 == |a| / 64;
  }

  lemma {:induction false} FullOfWhole(m: seq<byte>)
    requires |m| % 64 == 0
    ensures Full(m) == m && Tail(m) == []
  {
  }

  lemma {:induction false} FullAndTail(m: seq<byte>)
    ensures Full(m) + Tail(m) == m
  {
  }

  lemma {:induction false} AddSwap(x: Word, y: Word, z: Word)
    ensures Add(Add(x, y), z) == Add(Add(x, z), y)
  {
    AddLate(x + y, z);
    AddLate(x + z, y);
  }

  /** Reducing early changes nothing. */
  lemma {:induction false} AddLate(x: nat, y: nat)
    ensures (x % WORD_SIZE + y) % WORD_SIZE == (x + y) % WORD_SIZE
  {
    var q, r := x / WORD_SIZE, x % WORD_SIZE;
    var p, s := (r + y) / WORD_SIZE, (r + y) % WORD_SIZE;
    assert x + y == WORD_SIZE * (q + p) + s;
  }

  // ---- the streaming implementation ---------------------------------------------------------------

  class Sha1 {
    var h: Digest
    var totalBits: nat
    const buffer: array<byte>
    var bufferLen: nat
    ghost var Fed: seq<byte>

    /** `h` has compressed the complete blocks fed in, and the buffer holds what is left of them. */
    ghost predicate Valid()
      reads this, buffer
    {
      Holds(Fed) && totalBits == BitLength(|Fed|)
    }

    constructor ()
      ensures Valid() && fresh(buffer) && Fed == []
    {
      h := INITIAL;
      totalBits, bufferLen, Fed := 0, 0, [];
      buffer := new byte[64];
    }

    /** The fields describe the input `m`. */
    ghost predicate Holds(m: seq<byte>)
      reads this, buffer
    {
      && buffer.Length == 64
      && bufferLen == |m| % 64
      && h == Blocks(Full(m))
      && buffer[..bufferLen] == Tail(m)
    }

    /** Feed more input. */
    method Update(data: seq<byte>)
      requires Valid()
      modifies this, buffer
      ensures Valid() && Fed == old(Fed) + data
    {
      hide Blocks, Full, Tail, BitLength;
      if |data| == 0 {
        assert Fed + data == Fed;
        return;
      }
      BitLengthAdds(|Fed|, |data|);
      totalBits := (totalBits + |data| * 8) % 0x1_0000_0000_0000_0000;
      ghost var fed := Fed;
      Fed := fed + data;
      var p := 0;
      if bufferLen > 0 {
        p := TopUp(data, fed);
        if bufferLen > 0 {
          return;
        }
      } else {
        FullOfWhole(fed);
        assert fed + data[..0] == fed;
      }
      p := CompressWhole(data, p, fed);
      SplitAtBoundary(fed + data[..p], data[p..]);
      assert fed + data[..p] + data[p..] == Fed;
      Fill(data[p..]);
    }

    /** Complete the buffered block as far as the data goes; returns the number of bytes taken. */
    method TopUp(data: seq<byte>, ghost fed: seq<byte>) returns (p: nat)
      requires Holds(fed) && bufferLen > 0 && |data| > 0
      modifies this`h, this`bufferLen, buffer
      ensures p <= |data| && (bufferLen == 0 || p == |data|)
      ensures bufferLen == 0 ==> |fed + data[..p]| % 64 == 0 && h == Blocks(fed + data[..p])
      ensures bufferLen > 0 ==> Holds(fed + data)
    {
      hide Blocks, Compress;
      FullAndTail(fed);
      var need := 64 - bufferLen;
      p := if |data| < need then |data| else need;
      Fill(data[..p]);
      if bufferLen == 64 {
        BlocksStep(Full(fed), buffer[..]);
        assert Full(fed) + buffer[..] == fed + data[..p];
        ProcessBlock(buffer[..]);
        bufferLen := 0;
      } else {
        assert fed + data == Full(fed) + (Tail(fed) + data);
        SplitAtBoundary(Full(fed), Tail(fed) + data);
        assert buffer[..bufferLen] == Tail(fed) + data;
      }
    }

    /** Compress the complete blocks of `data` from `start` on. */
    method CompressWhole(data: seq<byte>, start: nat, ghost fed: seq<byte>) returns (p: nat)
      requires start <= |data| && |fed + data[..start]| % 64 == 0 && h == Blocks(fed + data[..start])
      modifies this`h
      ensures p <= |data| && |data| - p < 64
      ensures |fed + data[..p]| % 64 == 0 && h == Blocks(fed + data[..p])
    {
      hide Blocks, Compress;
      p := start;
      while |data| - p >= 64
        invariant p <= |data| && |fed + data[..p]| % 64 == 0
        invariant h == Blocks(fed + data[..p])
      {
        BlocksStep(fed + data[..p], data[p..p + 64]);
        assert fed + data[..p] + data[p..p + 64] == fed + data[..p + 64];
        ProcessBlock(data[p..p + 64]);
        p := p + 64;
      }
    }

    /** Copy bytes to the end of the buffer. */
    method Fill(data: seq<byte>)
      requires buffer.Length == 64 && bufferLen + |data| <= 64
      modifies this`bufferLen, buffer
      ensures bufferLen == old(bufferLen) + |data|
      ensures buffer[..bufferLen] == old(buffer[..bufferLen]) + data
    {
      forall i | 0 <= i < |data| {
        buffer[bufferLen + i] := data[i];
      }
      bufferLen := bufferLen + |data|;
    }

    /** Pad, append the length, and output the digest. */
    method Final() returns (digest: seq<byte>)
      requires Valid()
      modifies this, buffer
      ensures digest == Hash(old(Fed))
    {
      hide Blocks, BitLength, Full, Tail, Compress;
      ghost var m := Fed;
      var originalBitLen := totalBits;
      Update([0x80]);
      AppendPadding(m);
      var lenBytes := LengthBytes(originalBitLen);
      FullAndTail(Fed);
      ghost var tail := Tail(Fed);
      Fill(lenBytes);
      assert buffer[..64] == buffer[..] == tail + lenBytes;
      BlocksStep(Full(Fed), buffer[..]);
      assert Full(Fed) + (tail + lenBytes) == Fed + lenBytes;
      assert Fed + lenBytes == Padded(m);
      ProcessBlock(buffer[..]);
      bufferLen := 0;
      digest := OutputDigest();
    }

    /** Feed zero bytes until eight are left in the block. */
    method AppendPadding(ghost m: seq<byte>)
      requires Valid() && Fed == m + [0x80]
      modifies this, buffer
      ensures Valid() && Fed == m + [0x80] + Zeros(PadLength(|m|)) && bufferLen == 56
    {
      hide Blocks, BitLength, Full, Tail;
      ghost var k := 0;
      assert m + [0x80] + Zeros(0) == m + [0x80];
      PadStops(|m|, 0);
      while bufferLen % 64 != 56
        invariant Valid() && k <= PadLength(|m|)
        invariant Fed == m + [0x80] + Zeros(k)
        invariant bufferLen == 56 <==> k == PadLength(|m|)
        decreases PadLength(|m|) - k
      {
        Update([0x00]);
        assert Zeros(k) + [0x00] == Zeros(k + 1);
        Associate(m + [0x80], Zeros(k), [0x00]);
        k := k + 1;
        PadStops(|m|, k);
      }
    }

    static method LengthBytes(n: nat) returns (b: seq<byte>)
      ensures b == BigEndian(n, LENGTH_FIELD)
    {
      var bitLen := n;
      var a := new byte[LENGTH_FIELD];
      var i := LENGTH_FIELD as int - 1;
      while i >= 0
        invariant -1 <= i < LENGTH_FIELD
        invariant BigEndian(n, LENGTH_FIELD) == BigEndian(bitLen, i + 1) + a[i + 1..]
      {
        ghost var done := a[i + 1..];
        a[i] := bitLen % 256;
        assert a[i..] == [a[i]] + done;
        Associate(BigEndian(bitLen / 256, i), [a[i]], done);
        bitLen := bitLen / 256;
        i := i - 1;
      }
      b := a[..];
    }

    method OutputDigest() returns (digest: seq<byte>)
      ensures digest == DigestBytes(h)
    {
      var words := [h.a, h.b, h.c, h.d, h.e];
      digest := WordBytes(words[0]) + WordBytes(words[1]) + WordBytes(words[2]) + WordBytes(words[3]) + WordBytes(words[4]);
    }

    /** Compress one block into `h`. */
    method ProcessBlock(block: seq<byte>)
      requires |block| == 64
      modifies this`h
      ensures h == Compress(old(h), block)
    {
      hide F, K, W, Next, Add, Schedule;
      var w := ComputeSchedule(block);
      var r := h;
      for i := 0 to 80
        invariant h == old(h) && r == Rounds(h, w, i)
      {
        var f, k := RoundFunction(i, r.b, r.c, r.d);
        r := Round(r, f, k, w[i]);
      }
      h := Digest(Add(h.a, r.a), Add(h.b, r.b), Add(h.c, r.c), Add(h.d, r.d), Add(h.e, r.e));
    }

    /** One turn of the loop: the five registers move on. */
    static method Round(r: Digest, f: Word, k: Word, w: Word) returns (r': Digest)
      ensures r' == Next(r, f, w, k)
    {
      hide LeftRotate, Add;
      var a, b, c, d, e := r.a, r.b, r.c, r.d, r.e;
      AddSwap(Add(Add(LeftRotate(a, 5), f), e), k, w);
      var temp := Add(Add(Add(Add(LeftRotate(a, 5), f), e), k), w);
      e := d;
      d := c;
      c := LeftRotate(b, 30);
      b := a;
      a := temp;
      r' := Digest(a, b, c, d, e);
    }

    static method RoundFunction(i: nat, b: Word, c: Word, d: Word) returns (f: Word, k: Word)
      ensures f == F(i, b, c, d) && k == K(i)
    {
      hide And, Or, Xor, Not;
      if i < 20 {
        f := Or(And(b, c), And(Not(b), d));
        k := 0x5A827999;
      } else if i < 40 {
        f := Xor(Xor(b, c), d);
        k := 0x6ED9EBA1;
      } else if i < 60 {
        f := Or(Or(And(b, c), And(b, d)), And(c, d));
        k := 0x8F1BBCDC;
      } else {
        f := Xor(Xor(b, c), d);
        k := 0xCA62C1D6;
      }
    }

    /** Split the block into 16 words and extend them to 80. */
    static method ComputeSchedule(block: seq<byte>) returns (ws: seq<Word>)
      requires |block| == 64
      ensures ws == Schedule(block)
    {
      hide Xor, LeftRotate;
      var w := new Word[80];
      for i := 0 to 16
        invariant forall t :: 0 <= t < i ==> w[t] == W(block, t)
      {
        w[i] := block[i * 4] as int * 0x100_0000 + block[i * 4 + 1] as int * 0x1_0000
              + block[i * 4 + 2] as int * 0x100 + block[i * 4 + 3] as int;
      }
      for i := 16 to 80
        invariant forall t :: 0 <= t < i ==> w[t] == W(block, t)
      {
        w[i] := LeftRotate(Xor(Xor(Xor(w[i - 3], w[i - 8]), w[i - 14]), w[i - 16]), 1);
      }
      ws := w[..];
    }
  }

  /** The one-shot interface. */
  method HashOf(data: seq<byte>) returns (digest: seq<byte>)
    ensures digest == Hash(data)
  {
    var sha := new Sha1();
    assert [] + data == data;
    sha.Update(data);
    digest := sha.Final();
  }

  /** Any sequence of calls of `Update` followed by `Final` hashes the concatenation. */
  method HashOfPieces(pieces: seq<seq<byte>>) returns (digest: seq<byte>)
    ensures digest == Hash(Flat(pieces))
  {
    var sha := new Sha1();
    for i := 0 to |pieces|
      invariant sha.Valid() && fresh(sha) && fresh(sha.buffer)
      invariant sha.Fed == Flat(pieces[..i])
    {
      sha.Update(pieces[i]);
      FlatSnoc(pieces[..i], pieces[i]);
      assert pieces[..i] + [pieces[i]] == pieces[..i + 1];
    }
    assert pieces[..|pieces|] == pieces;
    digest := sha.Final();
  }
}
