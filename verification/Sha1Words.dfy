/** What the operations on words of SHA-1 mean, bit by bit and as numbers (sections 2 and 3 of RFC 3174). */
module Sha1Words {
  import opened Bytes
  import opened Sha1

  function Bits(x: Word): bv32 {
    x as bv32
  }

  /** Bit `k` is one. */
  predicate IsSet(a: bv32, k: nat)
    requires k < 32
  {
    (a >> k) & 1 == 1
  }

  lemma {:induction false} Octet0(x: Word)
    ensures IsSet(Bits(x), 0) <==> x / 0x1 % 2 == 1
    ensures IsSet(Bits(x), 1) <==> x / 0x2 % 2 == 1
    ensures IsSet(Bits(x), 2) <==> x / 0x4 % 2 == 1
    ensures IsSet(Bits(x), 3) <==> x / 0x8 % 2 == 1
    ensures IsSet(Bits(x), 4) <==> x / 0x10 % 2 == 1
    ensures IsSet(Bits(x), 5) <==> x / 0x20 % 2 == 1
    ensures IsSet(Bits(x), 6) <==> x / 0x40 % 2 == 1
    ensures IsSet(Bits(x), 7) <==> x / 0x80 % 2 == 1
  {
  }

  lemma {:induction false} Octet1(x: Word)
    ensures IsSet(Bits(x), 8) <==> x / 0x100 % 2 == 1
    ensures IsSet(Bits(x), 9) <==> x / 0x200 % 2 == 1
    ensures IsSet(Bits(x), 10) <==> x / 0x400 % 2 == 1
    ensures IsSet(Bits(x), 11) <==> x / 0x800 % 2 == 1
    ensures IsSet(Bits(x), 12) <==> x / 0x1000 % 2 == 1
    ensures IsSet(Bits(x), 13) <==> x / 0x2000 % 2 == 1
    ensures IsSet(Bits(x), 14) <==> x / 0x4000 % 2 == 1
    ensures IsSet(Bits(x), 15) <==> x / 0x8000 % 2 == 1
  {
  }

  lemma {:induction false} Octet2(x: Word)
    ensures IsSet(Bits(x), 16) <==> x / 0x10000 % 2 == 1
    ensures IsSet(Bits(x), 17) <==> x / 0x20000 % 2 == 1
    ensures IsSet(Bits(x), 18) <==> x / 0x40000 % 2 == 1
    ensures IsSet(Bits(x), 19) <==> x / 0x80000 % 2 == 1
    ensures IsSet(Bits(x), 20) <==> x / 0x100000 % 2 == 1
    ensures IsSet(Bits(x), 21) <==> x / 0x200000 % 2 == 1
    ensures IsSet(Bits(x), 22) <==> x / 0x400000 % 2 == 1
    ensures IsSet(Bits(x), 23) <==> x / 0x800000 % 2 == 1
  {
  }

  lemma {:induction false} Octet3(x: Word)
    ensures IsSet(Bits(x), 24) <==> x / 0x1000000 % 2 == 1
    ensures IsSet(Bits(x), 25) <==> x / 0x2000000 % 2 == 1
    ensures IsSet(Bits(x), 26) <==> x / 0x4000000 % 2 == 1
    ensures IsSet(Bits(x), 27) <==> x / 0x8000000 % 2 == 1
    ensures IsSet(Bits(x), 28) <==> x / 0x10000000 % 2 == 1
    ensures IsSet(Bits(x), 29) <==> x / 0x20000000 % 2 == 1
    ensures IsSet(Bits(x), 30) <==> x / 0x40000000 % 2 == 1
    ensures IsSet(Bits(x), 31) <==> x / 0x80000000 % 2 == 1
  {
  }

  /** The powers that divide a bit of one octet out, from that of its lowest bit. */
  lemma {:induction false} EightPowers(k: nat, p: nat)
    requires Pow2(k) == p
    ensures Pow2(k + 1) == 2 * p && Pow2(k + 2) == 4 * p && Pow2(k + 3) == 8 * p && Pow2(k + 4) == 16 * p
    ensures Pow2(k + 5) == 32 * p && Pow2(k + 6) == 64 * p && Pow2(k + 7) == 128 * p && Pow2(k + 8) == 256 * p
  {
    assert Pow2(k + 1) == 2 * p;
    assert Pow2(k + 2) == 4 * p;
    assert Pow2(k + 3) == 8 * p;
    assert Pow2(k + 4) == 16 * p;
    assert Pow2(k + 5) == 32 * p;
    assert Pow2(k + 6) == 64 * p;
    assert Pow2(k + 7) == 128 * p;
  }

  lemma {:induction false} Powers()
    ensures Pow2(0) == 1 && Pow2(8) == 0x100 && Pow2(16) == 0x1_0000 && Pow2(24) == 0x100_0000 && Pow2(32) == WORD_SIZE
  {
    hide Pow2;
    PowerZero();
    EightPowers(0, 1);
    EightPowers(8, 0x100);
    EightPowers(16, 0x1_0000);
    EightPowers(24, 0x100_0000);
  }

  lemma {:induction false} PowerZero()
    ensures Pow2(0) == 1
  {
  }

  lemma {:induction false} In0(x: Word, k: nat)
    requires 0 <= k < 8
    ensures Bit(x, k) == if IsSet(Bits(x), k) then 1 else 0
  {
    hide Pow2, Bits, IsSet;
    Powers();
    EightPowers(0, 0x1);
    Octet0(x);
    if k < 4 {
      assert k == 0 || k == 1 || k == 2 || k == 3;
    } else {
      assert k == 4 || k == 5 || k == 6 || k == 7;
    }
  }

  lemma {:induction false} In1(x: Word, k: nat)
    requires 8 <= k < 16
    ensures Bit(x, k) == if IsSet(Bits(x), k) then 1 else 0
  {
    hide Pow2, Bits, IsSet;
    Powers();
    EightPowers(8, 0x100);
    Octet1(x);
    if k < 12 {
      assert k == 8 || k == 9 || k == 10 || k == 11;
    } else {
      assert k == 12 || k == 13 || k == 14 || k == 15;
    }
  }

  lemma {:induction false} In2(x: Word, k: nat)
    requires 16 <= k < 24
    ensures Bit(x, k) == if IsSet(Bits(x), k) then 1 else 0
  {
    hide Pow2, Bits, IsSet;
    Powers();
    EightPowers(16, 0x10000);
    Octet2(x);
    if k < 20 {
      assert k == 16 || k == 17 || k == 18 || k == 19;
    } else {
      assert k == 20 || k == 21 || k == 22 || k == 23;
    }
  }

  lemma {:induction false} In3(x: Word, k: nat)
    requires 24 <= k < 32
    ensures Bit(x, k) == if IsSet(Bits(x), k) then 1 else 0
  {
    hide Pow2, Bits, IsSet;
    Powers();
    EightPowers(24, 0x1000000);
    Octet3(x);
    if k < 28 {
      assert k == 24 || k == 25 || k == 26 || k == 27;
    } else {
      assert k == 28 || k == 29 || k == 30 || k == 31;
    }
  }

  lemma {:induction false} BitIsSet(x: Word, k: nat)
    requires k < 32
    ensures Bit(x, k) == if IsSet(Bits(x), k) then 1 else 0
  {
    hide Bits, Bit, IsSet;
    if k < 8 {
      In0(x, k);
    } else if k < 16 {
      In1(x, k);
    } else if k < 24 {
      In2(x, k);
    } else {
      In3(x, k);
    }
  }

  lemma {:induction false} DeMorgan(a: bv32, b: bv32)
    ensures a & b == !(!a | !b)
  {
  }

  lemma {:induction false} AndIsSet(a: bv32, b: bv32, k: nat)
    requires k < 32
    ensures IsSet(a & b, k) <==> IsSet(a, k) && IsSet(b, k)
  {
    hide IsSet;
    DeMorgan(a, b);
    NotIsSet(!a | !b, k);
    OrIsSet(!a, !b, k);
    NotIsSet(a, k);
    NotIsSet(b, k);
  }

  lemma {:induction false} AndAsBits(x: Word, y: Word)
    ensures Bits(And(x, y)) == Bits(x) & Bits(y)
  {
  }

  /** Both bits are one. */
  lemma {:induction false} AndMeans(x: Word, y: Word, k: nat)
    requires k < 32
    ensures Bit(And(x, y), k) == if Bit(x, k) == 1 && Bit(y, k) == 1 then 1 else 0
  {
    hide Bits, IsSet, Bit, And;
    AndAsBits(x, y);
    AndIsSet(Bits(x), Bits(y), k);
    BitIsSet(x, k);
    BitIsSet(y, k);
    BitIsSet(And(x, y), k);
  }

  lemma {:induction false} OrIsSet(a: bv32, b: bv32, k: nat)
    requires k < 32
    ensures IsSet(a | b, k) <==> IsSet(a, k) || IsSet(b, k)
  {
    assert (a | b) >> k == (a >> k) | (b >> k);
  }

  lemma {:induction false} OrAsBits(x: Word, y: Word)
    ensures Bits(Or(x, y)) == Bits(x) | Bits(y)
  {
  }

  /** One of the bits, or both. */
  lemma {:induction false} OrMeans(x: Word, y: Word, k: nat)
    requires k < 32
    ensures Bit(Or(x, y), k) == if Bit(x, k) == 1 || Bit(y, k) == 1 then 1 else 0
  {
    hide Bits, IsSet, Bit, Or;
    OrAsBits(x, y);
    OrIsSet(Bits(x), Bits(y), k);
    BitIsSet(x, k);
    BitIsSet(y, k);
    BitIsSet(Or(x, y), k);
  }

  lemma {:induction false} XorIsSet(a: bv32, b: bv32, k: nat)
    requires k < 32
    ensures IsSet(a ^ b, k) <==> IsSet(a, k) != IsSet(b, k)
  {
    assert (a ^ b) >> k == (a >> k) ^ (b >> k);
  }

  lemma {:induction false} XorAsBits(x: Word, y: Word)
    ensures Bits(Xor(x, y)) == Bits(x) ^ Bits(y)
  {
  }

  /** The sum of the bits modulo 2. */
  lemma {:induction false} XorMeans(x: Word, y: Word, k: nat)
    requires k < 32
    ensures Bit(Xor(x, y), k) == (Bit(x, k) + Bit(y, k)) % 2
  {
    hide Bits, IsSet, Bit, Xor;
    XorAsBits(x, y);
    XorIsSet(Bits(x), Bits(y), k);
    BitIsSet(x, k);
    BitIsSet(y, k);
    BitIsSet(Xor(x, y), k);
  }

  lemma {:induction false} AllSet(k: nat)
    requires k < 32
    ensures IsSet(0xffff_ffff, k)
  {
  }

  lemma {:induction false} NotIsSet(a: bv32, k: nat)
    requires k < 32
    ensures IsSet(!a, k) <==> !IsSet(a, k)
  {
    hide IsSet;
    assert !a == a ^ 0xffff_ffff;
    XorIsSet(a, 0xffff_ffff, k);
    AllSet(k);
  }

  lemma {:induction false} NotAsBits(x: Word)
    ensures Bits(Not(x)) == !Bits(x)
  {
  }

  /** The other bit. */
  lemma {:induction false} NotMeans(x: Word, k: nat)
    requires k < 32
    ensures Bit(Not(x), k) == 1 - Bit(x, k)
  {
    hide Bits, IsSet, Bit, Not;
    NotAsBits(x);
    NotIsSet(Bits(x), k);
    BitIsSet(x, k);
    BitIsSet(Not(x), k);
  }

  // ---- circular shifts ---------------------------------------------------------------------------------------

  lemma {:induction false} SameBits(a: nat, b: nat, n: nat)
    requires a < Pow2(n) && b < Pow2(n)
    requires forall k :: 0 <= k < n ==> Bit(a, k) == Bit(b, k)
    ensures a == b
  {
    hide Bit;
    if n > 0 {
      BitHalves(a, 0);
      BitHalves(b, 0);
      forall k | 0 <= k < n - 1
        ensures Bit(a / 2, k) == Bit(b / 2, k)
      {
        BitHalves(a, k);
        BitHalves(b, k);
        assert Bit(a, k + 1) == Bit(b, k + 1);
      }
      SameBits(a / 2, b / 2, n - 1);
      assert Bit(a, 0) == Bit(b, 0);
    }
  }

  /** The bits of `q` above the low `n` bits `l`. */
  lemma {:induction false} BitOfBoth(q: nat, l: nat, n: nat, k: nat)
    requires l < Pow2(n)
    ensures Bit(q * Pow2(n) + l, k) == if k < n then Bit(l, k) else Bit(q, k - n)
  {
    hide Bit;
    var x := q * Pow2(n) + l;
    if n > 0 {
      var p := Pow2(n - 1);
      assert q * (2 * p) == 2 * (q * p);
      assert x / 2 == q * p + l / 2 && x % 2 == l % 2;
      if k == 0 {
        BitHalves(x, 0);
        BitHalves(l, 0);
      } else {
        BitHalves(x, k - 1);
        BitHalves(l, k - 1);
        BitOfBoth(q, l / 2, n - 1, k - 1);
      }
    }
  }

  lemma {:induction false} NoHighBits(l: nat, n: nat, k: nat)
    requires l < Pow2(n) && n <= k
    ensures Bit(l, k) == 0
  {
    BitOfBoth(0, l, n, k);
    NoBits(k - n);
  }

  lemma {:induction false} NoBits(k: nat)
    ensures Bit(0, k) == 0
  {
  }

  /** The two parts of a circular shift have no bit in common, so that both together are their sum. */
  lemma {:induction false} OrIsSum(q: nat, l: Word, n: nat, h: Word)
    requires n <= 32 && l < Pow2(n) && h == q * Pow2(n) && h + l < WORD_SIZE
    ensures Or(h, l) == h + l
  {
    hide Or, Bit;
    Powers();
    forall k | 0 <= k < 32
      ensures Bit(Or(h, l), k) == Bit(h + l, k)
    {
      OrMeans(h, l, k);
      BitOfBoth(q, l, n, k);
      BitOfBoth(q, 0, n, k);
      NoBits(k);
      if n <= k {
        NoHighBits(l, n, k);
      }
    }
    SameBits(Or(h, l), h + l, 32);
  }

  lemma {:induction false} PowersAdd(a: nat, b: nat)
    ensures Pow2(a) * Pow2(b) == Pow2(a + b)
  {
    if a > 0 {
      PowersAdd(a - 1, b);
      assert 2 * Pow2(a - 1) * Pow2(b) == 2 * (Pow2(a - 1) * Pow2(b));
    }
  }

  lemma {:induction false} Distribute(x: nat, y: nat, p: nat)
    ensures (x + y) * p == x * p + y * p
  {
  }

  lemma {:induction false} Rearrange(q: nat, m: nat, p: nat)
    ensures q * m * p == q * (p * m)
  {
  }

  /** What a shift to the left keeps: the low bits, moved up. */
  lemma {:induction false} Kept(x: nat, p: nat, m: nat)
    requires p > 0 && m > 0
    ensures x * p % (p * m) == (x % m) * p
  {
    var q, r := x / m, x % m;
    assert x == q * m + r;
    Distribute(q * m, r, p);
    Rearrange(q, m, p);
    MultiplyGrows(p, r + 1, m);
    Distribute(r, 1, p);
    Quotient(q, p * m, r * p);
  }

  /** A circular shift: the bits moved up, modulo 2^32, and those that fell out, below them. */
  lemma {:induction false} RotationMeans(x: Word, n: nat)
    requires n < 32
    ensures LeftRotate(x, n) == x * Pow2(n) % WORD_SIZE + x / Pow2(32 - n)
  {
    hide Or, Pow2;
    Powers();
    PowersAdd(n, 32 - n);
    var p, m := Pow2(n), Pow2(32 - n);
    Kept(x, p, m);
    Divided(x, p, m);
    OrIsSum(x % m, x / m, n, x * p % WORD_SIZE);
  }

  lemma {:induction false} Divided(x: nat, p: nat, m: nat)
    requires m > 0 && x < p * m
    ensures x / m < p && (x % m) * p + x / m < p * m
  {
    assert x == (x / m) * m + x % m;
    if x / m >= p {
      MultiplyGrows(m, p, x / m);
    }
    MultiplyGrows(p, x % m + 1, m);
  }

  // ---- octets ------------------------------------------------------------------------------------------------

  /** The octets of a word are its big-endian octets, and a word of a block is read back from them. */
  lemma {:induction false} WordBytesMean(w: Word)
    ensures WordBytes(w) == BigEndian(w, 4)
    ensures WordAt(WordBytes(w), 0) == w
  {
    assert w / 256 / 256 / 256 / 256 == 0;
    var none: seq<byte> := [];
    assert BigEndian(w / 256 / 256 / 256 / 256, 0) == none;
    assert BigEndian(w / 256 / 256 / 256, 1) == [w / 0x100_0000];
  }
}
