/** The known answer of section 7.3 of RFC 3174: the hash of "abc", word by word and round by round. */
module Sha1Answer {
  import opened Bytes
  import opened Sha1

  import Text

  const ABC: seq<byte> := [0x61, 0x62, 0x63]

  /** "abc" padded: a one bit, zeros, and its 24 bits counted. */
  const BLOCK: seq<byte> := ABC + [0x80] + Zeros(59) + [24]

  lemma {:induction false} PaddedAbc()
    ensures |BLOCK| == 64 && Padded(ABC) == BLOCK && BLOCK == ABC + [0x80] + Zeros(59) + [24]
  {
    assert PadLength(3) == 52 && BitLength(3) == 24;
    TwentyFour();
    hide BigEndian;
    assert Zeros(52) + (Zeros(7) + [24]) == Zeros(59) + [24];
    assert ABC + [0x80] + Zeros(52) + (Zeros(7) + [24]) == BLOCK;
  }

  lemma {:induction false} TwentyFour()
    ensures BigEndian(24, LENGTH_FIELD) == Zeros(7) + [24]
  {
    AllZeros(7);
    assert 24 / 256 == 0 && 24 % 256 == 24;
  }

  lemma {:induction false} AllZeros(k: nat)
    ensures BigEndian(0, k) == Zeros(k)
  {
    if k > 0 {
      AllZeros(k - 1);
    }
  }

  // ---- one step ----------------------------------------------------------------------------------------------

  lemma {:induction false} Powers()
    ensures Pow2(1) == 2 && Pow2(2) == 4 && Pow2(5) == 32
    ensures Pow2(27) == 0x800_0000 && Pow2(30) == 0x4000_0000 && Pow2(31) == 0x8000_0000
  {
    assert Pow2(10) == 0x400;
    assert Pow2(20) == 0x10_0000;
    assert Pow2(27) == 0x800_0000;
  }

  /** A word of the schedule from four before it. */
  lemma {:induction false} Extends(t: nat, x: Word, y: Word, z: Word, u: Word)
    requires 16 <= t < 80 && |BLOCK| == 64
    requires W(BLOCK, t - 3) == x && W(BLOCK, t - 8) == y && W(BLOCK, t - 14) == z && W(BLOCK, t - 16) == u
    ensures W(BLOCK, t) == LeftRotate(Xor(Xor(Xor(x, y), z), u), 1)
  {
    hide Xor, LeftRotate, BLOCK, WordAt;
  }

  /** The registers before step `t`. */
  predicate Registers(t: nat, a: Word, b: Word, c: Word, d: Word, e: Word)
    requires t <= 80 && |BLOCK| == 64
  {
    Rounds(INITIAL, Schedule(BLOCK), t) == Digest(a, b, c, d, e)
  }

  /** One round, from what its function and its two circular shifts give. */
  lemma {:induction false} Step(t: nat, a: Word, b: Word, c: Word, d: Word, e: Word, w: Word,
                                f: Word, rotated: Word, moved: Word, next: Word)
    requires t < 80 && |BLOCK| == 64 && Registers(t, a, b, c, d, e) && W(BLOCK, t) == w
    requires F(t, b, c, d) == f && LeftRotate(a, 5) == rotated && LeftRotate(b, 30) == moved
    requires next == (rotated + f + e + w + K(t)) % WORD_SIZE
    ensures Registers(t + 1, next, a, moved, c, d)
  {
    hide LeftRotate, F, K, W, BLOCK;
    var ws := Schedule(BLOCK);
    assert ws[t] == W(BLOCK, t);
    FiveSum(rotated, f, e, w, K(t));
  }

  lemma {:induction false} FiveSum(a: Word, f: Word, e: Word, w: Word, k: Word)
    ensures Add(Add(Add(Add(a, f), e), w), k) == (a + f + e + w + k) % WORD_SIZE
  {
    AddLate(a + f, e);
    AddLate(a + f + e, w);
    AddLate(a + f + e + w, k);
  }

  // ---- the schedule ------------------------------------------------------------------------------------------

  lemma {:induction false} Words0()
    ensures |BLOCK| == 64
    ensures W(BLOCK, 0) == 0x61626380 && W(BLOCK, 15) == 24
    ensures forall t :: 1 <= t < 15 ==> W(BLOCK, t) == 0
  {
    PaddedAbc();
    hide Padded;
    assert BLOCK[0] == 0x61 && BLOCK[1] == 0x62 && BLOCK[2] == 0x63 && BLOCK[3] == 0x80 && BLOCK[63] == 24;
    assert forall i :: 4 <= i < 63 ==> BLOCK[i] == 0;
    forall t | 0 <= t < 16 ensures W(BLOCK, t) == WordAt(BLOCK, t) {
    }
  }

  lemma {:induction false} Sums16()
    ensures Xor(0, 0) == 0 && Xor(0, 0) == 0
    ensures Xor(0, 0x61626380) == 0x61626380 && Or(0xc2c4c700, 0) == 0xc2c4c700
    ensures Xor(0, 0) == 0 && Xor(0, 0) == 0
    ensures Xor(0, 0) == 0 && Or(0, 0) == 0
    ensures Xor(24, 0) == 24 && Xor(24, 0) == 24
    ensures Xor(24, 0) == 24 && Or(48, 0) == 48
    ensures Xor(0xc2c4c700, 0) == 0xc2c4c700 && Xor(0xc2c4c700, 0) == 0xc2c4c700
    ensures Xor(0xc2c4c700, 0) == 0xc2c4c700 && Or(0x85898e00, 1) == 0x85898e01
  {
  }

  lemma {:induction false} Sums20()
    ensures Xor(0, 0) == 0 && Xor(0, 0) == 0
    ensures Xor(0, 0) == 0 && Or(0, 0) == 0
    ensures Xor(48, 0) == 48 && Xor(48, 0) == 48
    ensures Xor(48, 0) == 48 && Or(96, 0) == 96
    ensures Xor(0x85898e01, 0) == 0x85898e01 && Xor(0x85898e01, 0) == 0x85898e01
    ensures Xor(0x85898e01, 0) == 0x85898e01 && Or(0x0b131c02, 1) == 0x0b131c03
    ensures Xor(0, 24) == 24 && Xor(24, 0) == 24
    ensures Xor(24, 0) == 24 && Or(48, 0) == 48
  {
  }

  lemma {:induction false} Words16()
    ensures |BLOCK| == 64
    ensures W(BLOCK, 16) == 0xc2c4c700 && W(BLOCK, 17) == 0 && W(BLOCK, 18) == 48
    ensures W(BLOCK, 19) == 0x85898e01 && W(BLOCK, 20) == 0 && W(BLOCK, 21) == 96
    ensures W(BLOCK, 22) == 0x0b131c03 && W(BLOCK, 23) == 48
  {
    hide W, Xor, Or, Pow2;
    Powers();
    Sums16();
    Sums20();
    Words0();
    Extends(16, 0, 0, 0, 0x61626380);
    Extends(17, 0, 0, 0, 0);
    Extends(18, 24, 0, 0, 0);
    Extends(19, 0xc2c4c700, 0, 0, 0);
    Extends(20, 0, 0, 0, 0);
    Extends(21, 48, 0, 0, 0);
    Extends(22, 0x85898e01, 0, 0, 0);
    Extends(23, 0, 24, 0, 0);
  }

  lemma {:induction false} Sums24()
    ensures Xor(96, 0xc2c4c700) == 0xc2c4c760 && Xor(0xc2c4c760, 0) == 0xc2c4c760
    ensures Xor(0xc2c4c760, 0) == 0xc2c4c760 && Or(0x85898ec0, 1) == 0x85898ec1
    ensures Xor(0x0b131c03, 0) == 0x0b131c03 && Xor(0x0b131c03, 0) == 0x0b131c03
    ensures Xor(0x0b131c03, 0) == 0x0b131c03 && Or(0x16263806, 0) == 0x16263806
    ensures Xor(48, 48) == 0 && Xor(0, 0) == 0
    ensures Xor(0, 0) == 0 && Or(0, 0) == 0
    ensures Xor(0x85898ec1, 0x85898e01) == 0x000000c0 && Xor(0x000000c0, 0) == 0x000000c0
    ensures Xor(0x000000c0, 0) == 0x000000c0 && Or(0x00000180, 0) == 0x00000180
  {
  }

  lemma {:induction false} Sums28()
    ensures Xor(0x16263806, 0) == 0x16263806 && Xor(0x16263806, 0) == 0x16263806
    ensures Xor(0x16263806, 0) == 0x16263806 && Or(0x2c4c700c, 0) == 0x2c4c700c
    ensures Xor(0, 96) == 96 && Xor(96, 24) == 0x00000078
    ensures Xor(0x00000078, 0) == 0x00000078 && Or(0x000000f0, 0) == 0x000000f0
    ensures Xor(0x00000180, 0x0b131c03) == 0x0b131d83 && Xor(0x0b131d83, 0xc2c4c700) == 0xc9d7da83
    ensures Xor(0xc9d7da83, 0) == 0xc9d7da83 && Or(0x93afb506, 1) == 0x93afb507
    ensures Xor(0x2c4c700c, 48) == 0x2c4c703c && Xor(0x2c4c703c, 0) == 0x2c4c703c
    ensures Xor(0x2c4c703c, 24) == 0x2c4c7024 && Or(0x5898e048, 0) == 0x5898e048
  {
  }

  lemma {:induction false} Words24()
    ensures |BLOCK| == 64
    ensures W(BLOCK, 24) == 0x85898ec1 && W(BLOCK, 25) == 0x16263806 && W(BLOCK, 26) == 0
    ensures W(BLOCK, 27) == 0x00000180 && W(BLOCK, 28) == 0x2c4c700c && W(BLOCK, 29) == 0x000000f0
    ensures W(BLOCK, 30) == 0x93afb507 && W(BLOCK, 31) == 0x5898e048
  {
    hide W, Xor, Or, Pow2;
    Powers();
    Sums24();
    Sums28();
    Words0();
    Words16();
    Extends(24, 96, 0xc2c4c700, 0, 0);
    Extends(25, 0x0b131c03, 0, 0, 0);
    Extends(26, 48, 48, 0, 0);
    Extends(27, 0x85898ec1, 0x85898e01, 0, 0);
    Extends(28, 0x16263806, 0, 0, 0);
    Extends(29, 0, 96, 24, 0);
    Extends(30, 0x00000180, 0x0b131c03, 0xc2c4c700, 0);
    Extends(31, 0x2c4c700c, 48, 0, 24);
  }

  lemma {:induction false} Sums32()
    ensures Xor(0x000000f0, 0x85898ec1) == 0x85898e31 && Xor(0x85898e31, 48) == 0x85898e01
    ensures Xor(0x85898e01, 0xc2c4c700) == 0x474d4901 && Or(0x8e9a9202, 0) == 0x8e9a9202
    ensures Xor(0x93afb507, 0x16263806) == 0x85898d01 && Xor(0x85898d01, 0x85898e01) == 0x00000300
    ensures Xor(0x00000300, 0) == 0x00000300 && Or(0x00000600, 0) == 0x00000600
    ensures Xor(0x5898e048, 0) == 0x5898e048 && Xor(0x5898e048, 0) == 0x5898e048
    ensures Xor(0x5898e048, 48) == 0x5898e078 && Or(0xb131c0f0, 0) == 0xb131c0f0
    ensures Xor(0x8e9a9202, 0x00000180) == 0x8e9a9382 && Xor(0x8e9a9382, 96) == 0x8e9a93e2
    ensures Xor(0x8e9a93e2, 0x85898e01) == 0x0b131de3 && Or(0x16263bc6, 0) == 0x16263bc6
  {
  }

  lemma {:induction false} Sums36()
    ensures Xor(0x00000600, 0x2c4c700c) == 0x2c4c760c && Xor(0x2c4c760c, 0x0b131c03) == 0x275f6a0f
    ensures Xor(0x275f6a0f, 0) == 0x275f6a0f && Or(0x4ebed41e, 0) == 0x4ebed41e
    ensures Xor(0xb131c0f0, 0x000000f0) == 0xb131c000 && Xor(0xb131c000, 48) == 0xb131c030
    ensures Xor(0xb131c030, 96) == 0xb131c050 && Or(0x626380a0, 1) == 0x626380a1
    ensures Xor(0x16263bc6, 0x93afb507) == 0x85898ec1 && Xor(0x85898ec1, 0x85898ec1) == 0
    ensures Xor(0, 0x0b131c03) == 0x0b131c03 && Or(0x16263806, 0) == 0x16263806
    ensures Xor(0x4ebed41e, 0x5898e048) == 0x16263456 && Xor(0x16263456, 0x16263806) == 0x00000c50
    ensures Xor(0x00000c50, 48) == 0x00000c60 && Or(0x000018c0, 0) == 0x000018c0
  {
  }

  lemma {:induction false} Words32()
    ensures |BLOCK| == 64
    ensures W(BLOCK, 32) == 0x8e9a9202 && W(BLOCK, 33) == 0x00000600 && W(BLOCK, 34) == 0xb131c0f0
    ensures W(BLOCK, 35) == 0x16263bc6 && W(BLOCK, 36) == 0x4ebed41e && W(BLOCK, 37) == 0x626380a1
    ensures W(BLOCK, 38) == 0x16263806 && W(BLOCK, 39) == 0x000018c0
  {
    hide W, Xor, Or, Pow2;
    Powers();
    Sums32();
    Sums36();
    Words16();
    Words24();
    Extends(32, 0x000000f0, 0x85898ec1, 48, 0xc2c4c700);
    Extends(33, 0x93afb507, 0x16263806, 0x85898e01, 0);
    Extends(34, 0x5898e048, 0, 0, 48);
    Extends(35, 0x8e9a9202, 0x00000180, 96, 0x85898e01);
    Extends(36, 0x00000600, 0x2c4c700c, 0x0b131c03, 0);
    Extends(37, 0xb131c0f0, 0x000000f0, 48, 96);
    Extends(38, 0x16263bc6, 0x93afb507, 0x85898ec1, 0x0b131c03);
    Extends(39, 0x4ebed41e, 0x5898e048, 0x16263806, 48);
  }

  lemma {:induction false} Sums40()
    ensures Xor(0x626380a1, 0x8e9a9202) == 0xecf912a3 && Xor(0xecf912a3, 0) == 0xecf912a3
    ensures Xor(0xecf912a3, 0x85898ec1) == 0x69709c62 && Or(0xd2e138c4, 0) == 0xd2e138c4
    ensures Xor(0x16263806, 0x00000600) == 0x16263e06 && Xor(0x16263e06, 0x00000180) == 0x16263f86
    ensures Xor(0x16263f86, 0x16263806) == 0x00000780 && Or(0x00000f00, 0) == 0x00000f00
    ensures Xor(0x000018c0, 0xb131c0f0) == 0xb131d830 && Xor(0xb131d830, 0x2c4c700c) == 0x9d7da83c
    ensures Xor(0x9d7da83c, 0) == 0x9d7da83c && Or(0x3afb5078, 1) == 0x3afb5079
    ensures Xor(0xd2e138c4, 0x16263bc6) == 0xc4c70302 && Xor(0xc4c70302, 0x000000f0) == 0xc4c703f2
    ensures Xor(0xc4c703f2, 0x00000180) == 0xc4c70272 && Or(0x898e04e4, 1) == 0x898e04e5
  {
  }

  lemma {:induction false} Sums44()
    ensures Xor(0x00000f00, 0x4ebed41e) == 0x4ebedb1e && Xor(0x4ebedb1e, 0x93afb507) == 0xdd116e19
    ensures Xor(0xdd116e19, 0x2c4c700c) == 0xf15d1e15 && Or(0xe2ba3c2a, 1) == 0xe2ba3c2b
    ensures Xor(0x3afb5079, 0x626380a1) == 0x5898d0d8 && Xor(0x5898d0d8, 0x5898e048) == 0x00003090
    ensures Xor(0x00003090, 0x000000f0) == 0x00003060 && Or(0x000060c0, 0) == 0x000060c0
    ensures Xor(0x898e04e5, 0x16263806) == 0x9fa83ce3 && Xor(0x9fa83ce3, 0x8e9a9202) == 0x1132aee1
    ensures Xor(0x1132aee1, 0x93afb507) == 0x829d1be6 && Or(0x053a37cc, 1) == 0x053a37cd
    ensures Xor(0xe2ba3c2b, 0x000018c0) == 0xe2ba24eb && Xor(0xe2ba24eb, 0x00000600) == 0xe2ba22eb
    ensures Xor(0xe2ba22eb, 0x5898e048) == 0xba22c2a3 && Or(0x74458546, 1) == 0x74458547
  {
  }

  lemma {:induction false} Words40()
    ensures |BLOCK| == 64
    ensures W(BLOCK, 40) == 0xd2e138c4 && W(BLOCK, 41) == 0x00000f00 && W(BLOCK, 42) == 0x3afb5079
    ensures W(BLOCK, 43) == 0x898e04e5 && W(BLOCK, 44) == 0xe2ba3c2b && W(BLOCK, 45) == 0x000060c0
    ensures W(BLOCK, 46) == 0x053a37cd && W(BLOCK, 47) == 0x74458547
  {
    hide W, Xor, Or, Pow2;
    Powers();
    Sums40();
    Sums44();
    Words24();
    Words32();
    Extends(40, 0x626380a1, 0x8e9a9202, 0, 0x85898ec1);
    Extends(41, 0x16263806, 0x00000600, 0x00000180, 0x16263806);
    Extends(42, 0x000018c0, 0xb131c0f0, 0x2c4c700c, 0);
    Extends(43, 0xd2e138c4, 0x16263bc6, 0x000000f0, 0x00000180);
    Extends(44, 0x00000f00, 0x4ebed41e, 0x93afb507, 0x2c4c700c);
    Extends(45, 0x3afb5079, 0x626380a1, 0x5898e048, 0x000000f0);
    Extends(46, 0x898e04e5, 0x16263806, 0x8e9a9202, 0x93afb507);
    Extends(47, 0xe2ba3c2b, 0x000018c0, 0x00000600, 0x5898e048);
  }

  lemma {:induction false} Sums48()
    ensures Xor(0x000060c0, 0xd2e138c4) == 0xd2e15804 && Xor(0xd2e15804, 0xb131c0f0) == 0x63d098f4
    ensures Xor(0x63d098f4, 0x8e9a9202) == 0xed4a0af6 && Or(0xda9415ec, 1) == 0xda9415ed
    ensures Xor(0x053a37cd, 0x00000f00) == 0x053a38cd && Xor(0x053a38cd, 0x16263bc6) == 0x131c030b
    ensures Xor(0x131c030b, 0x00000600) == 0x131c050b && Or(0x26380a16, 0) == 0x26380a16
    ensures Xor(0x74458547, 0x3afb5079) == 0x4ebed53e && Xor(0x4ebed53e, 0x4ebed41e) == 0x00000120
    ensures Xor(0x00000120, 0xb131c0f0) == 0xb131c1d0 && Or(0x626383a0, 1) == 0x626383a1
    ensures Xor(0xda9415ed, 0x898e04e5) == 0x531a1108 && Xor(0x531a1108, 0x626380a1) == 0x317991a9
    ensures Xor(0x317991a9, 0x16263bc6) == 0x275faa6f && Or(0x4ebf54de, 0) == 0x4ebf54de
  {
  }

  lemma {:induction false} Sums52()
    ensures Xor(0x26380a16, 0xe2ba3c2b) == 0xc482363d && Xor(0xc482363d, 0x16263806) == 0xd2a40e3b
    ensures Xor(0xd2a40e3b, 0x4ebed41e) == 0x9c1ada25 && Or(0x3835b44a, 1) == 0x3835b44b
    ensures Xor(0x626383a1, 0x000060c0) == 0x6263e361 && Xor(0x6263e361, 0x000018c0) == 0x6263fba1
    ensures Xor(0x6263fba1, 0x626380a1) == 0x00007b00 && Or(0x0000f600, 0) == 0x0000f600
    ensures Xor(0x4ebf54de, 0x053a37cd) == 0x4b856313 && Xor(0x4b856313, 0xd2e138c4) == 0x99645bd7
    ensures Xor(0x99645bd7, 0x16263806) == 0x8f4263d1 && Or(0x1e84c7a2, 1) == 0x1e84c7a3
    ensures Xor(0x3835b44b, 0x74458547) == 0x4c70310c && Xor(0x4c70310c, 0x00000f00) == 0x4c703e0c
    ensures Xor(0x4c703e0c, 0x000018c0) == 0x4c7026cc && Or(0x98e04d98, 0) == 0x98e04d98
  {
  }

  lemma {:induction false} Words48()
    ensures |BLOCK| == 64
    ensures W(BLOCK, 48) == 0xda9415ed && W(BLOCK, 49) == 0x26380a16 && W(BLOCK, 50) == 0x626383a1
    ensures W(BLOCK, 51) == 0x4ebf54de && W(BLOCK, 52) == 0x3835b44b && W(BLOCK, 53) == 0x0000f600
    ensures W(BLOCK, 54) == 0x1e84c7a3 && W(BLOCK, 55) == 0x98e04d98
  {
    hide W, Xor, Or, Pow2;
    Powers();
    Sums48();
    Sums52();
    Words32();
    Words40();
    Extends(48, 0x000060c0, 0xd2e138c4, 0xb131c0f0, 0x8e9a9202);
    Extends(49, 0x053a37cd, 0x00000f00, 0x16263bc6, 0x00000600);
    Extends(50, 0x74458547, 0x3afb5079, 0x4ebed41e, 0xb131c0f0);
    Extends(51, 0xda9415ed, 0x898e04e5, 0x626380a1, 0x16263bc6);
    Extends(52, 0x26380a16, 0xe2ba3c2b, 0x16263806, 0x4ebed41e);
    Extends(53, 0x626383a1, 0x000060c0, 0x000018c0, 0x626380a1);
    Extends(54, 0x4ebf54de, 0x053a37cd, 0xd2e138c4, 0x16263806);
    Extends(55, 0x3835b44b, 0x74458547, 0x00000f00, 0x000018c0);
  }

  lemma {:induction false} Sums56()
    ensures Xor(0x0000f600, 0xda9415ed) == 0xda94e3ed && Xor(0xda94e3ed, 0x3afb5079) == 0xe06fb394
    ensures Xor(0xe06fb394, 0xd2e138c4) == 0x328e8b50 && Or(0x651d16a0, 0) == 0x651d16a0
    ensures Xor(0x1e84c7a3, 0x26380a16) == 0x38bccdb5 && Xor(0x38bccdb5, 0x898e04e5) == 0xb132c950
    ensures Xor(0xb132c950, 0x00000f00) == 0xb132c650 && Or(0x62658ca0, 1) == 0x62658ca1
    ensures Xor(0x98e04d98, 0x626383a1) == 0xfa83ce39 && Xor(0xfa83ce39, 0xe2ba3c2b) == 0x1839f212
    ensures Xor(0x1839f212, 0x3afb5079) == 0x22c2a26b && Or(0x458544d6, 0) == 0x458544d6
    ensures Xor(0x651d16a0, 0x4ebf54de) == 0x2ba2427e && Xor(0x2ba2427e, 0x000060c0) == 0x2ba222be
    ensures Xor(0x2ba222be, 0x898e04e5) == 0xa22c265b && Or(0x44584cb6, 1) == 0x44584cb7
  {
  }

  lemma {:induction false} Sums60()
    ensures Xor(0x62658ca1, 0x3835b44b) == 0x5a5038ea && Xor(0x5a5038ea, 0x053a37cd) == 0x5f6a0f27
    ensures Xor(0x5f6a0f27, 0xe2ba3c2b) == 0xbdd0330c && Or(0x7ba06618, 1) == 0x7ba06619
    ensures Xor(0x458544d6, 0x0000f600) == 0x4585b2d6 && Xor(0x4585b2d6, 0x74458547) == 0x31c03791
    ensures Xor(0x31c03791, 0x000060c0) == 0x31c05751 && Or(0x6380aea2, 0) == 0x6380aea2
    ensures Xor(0x44584cb7, 0x1e84c7a3) == 0x5adc8b14 && Xor(0x5adc8b14, 0xda9415ed) == 0x80489ef9
    ensures Xor(0x80489ef9, 0x053a37cd) == 0x8572a934 && Or(0x0ae55268, 1) == 0x0ae55269
    ensures Xor(0x7ba06619, 0x98e04d98) == 0xe3402b81 && Xor(0xe3402b81, 0x26380a16) == 0xc5782197
    ensures Xor(0xc5782197, 0x74458547) == 0xb13da4d0 && Or(0x627b49a0, 1) == 0x627b49a1
  {
  }

  lemma {:induction false} Words56()
    ensures |BLOCK| == 64
    ensures W(BLOCK, 56) == 0x651d16a0 && W(BLOCK, 57) == 0x62658ca1 && W(BLOCK, 58) == 0x458544d6
    ensures W(BLOCK, 59) == 0x44584cb7 && W(BLOCK, 60) == 0x7ba06619 && W(BLOCK, 61) == 0x6380aea2
    ensures W(BLOCK, 62) == 0x0ae55269 && W(BLOCK, 63) == 0x627b49a1
  {
    hide W, Xor, Or, Pow2;
    Powers();
    Sums56();
    Sums60();
    Words40();
    Words48();
    Extends(56, 0x0000f600, 0xda9415ed, 0x3afb5079, 0xd2e138c4);
    Extends(57, 0x1e84c7a3, 0x26380a16, 0x898e04e5, 0x00000f00);
    Extends(58, 0x98e04d98, 0x626383a1, 0xe2ba3c2b, 0x3afb5079);
    Extends(59, 0x651d16a0, 0x4ebf54de, 0x000060c0, 0x898e04e5);
    Extends(60, 0x62658ca1, 0x3835b44b, 0x053a37cd, 0xe2ba3c2b);
    Extends(61, 0x458544d6, 0x0000f600, 0x74458547, 0x000060c0);
    Extends(62, 0x44584cb7, 0x1e84c7a3, 0xda9415ed, 0x053a37cd);
    Extends(63, 0x7ba06619, 0x98e04d98, 0x26380a16, 0x74458547);
  }

  lemma {:induction false} Sums64()
    ensures Xor(0x6380aea2, 0x651d16a0) == 0x069db802 && Xor(0x069db802, 0x626383a1) == 0x64fe3ba3
    ensures Xor(0x64fe3ba3, 0xda9415ed) == 0xbe6a2e4e && Or(0x7cd45c9c, 1) == 0x7cd45c9d
    ensures Xor(0x0ae55269, 0x62658ca1) == 0x6880dec8 && Xor(0x6880dec8, 0x4ebf54de) == 0x263f8a16
    ensures Xor(0x263f8a16, 0x26380a16) == 0x00078000 && Or(0x000f0000, 0) == 0x000f0000
    ensures Xor(0x627b49a1, 0x458544d6) == 0x27fe0d77 && Xor(0x27fe0d77, 0x3835b44b) == 0x1fcbb93c
    ensures Xor(0x1fcbb93c, 0x626383a1) == 0x7da83a9d && Or(0xfb50753a, 0) == 0xfb50753a
    ensures Xor(0x7cd45c9d, 0x44584cb7) == 0x388c102a && Xor(0x388c102a, 0x0000f600) == 0x388ce62a
    ensures Xor(0x388ce62a, 0x4ebf54de) == 0x7633b2f4 && Or(0xec6765e8, 0) == 0xec6765e8
  {
  }

  lemma {:induction false} Sums68()
    ensures Xor(0x000f0000, 0x7ba06619) == 0x7baf6619 && Xor(0x7baf6619, 0x1e84c7a3) == 0x652ba1ba
    ensures Xor(0x652ba1ba, 0x3835b44b) == 0x5d1e15f1 && Or(0xba3c2be2, 0) == 0xba3c2be2
    ensures Xor(0xfb50753a, 0x6380aea2) == 0x98d0db98 && Xor(0x98d0db98, 0x98e04d98) == 0x00309600
    ensures Xor(0x00309600, 0x0000f600) == 0x00306000 && Or(0x0060c000, 0) == 0x0060c000
    ensures Xor(0xec6765e8, 0x0ae55269) == 0xe6823781 && Xor(0xe6823781, 0x651d16a0) == 0x839f2121
    ensures Xor(0x839f2121, 0x1e84c7a3) == 0x9d1be682 && Or(0x3a37cd04, 1) == 0x3a37cd05
    ensures Xor(0xba3c2be2, 0x627b49a1) == 0xd8476243 && Xor(0xd8476243, 0x62658ca1) == 0xba22eee2
    ensures Xor(0xba22eee2, 0x98e04d98) == 0x22c2a37a && Or(0x458546f4, 0) == 0x458546f4
  {
  }

  lemma {:induction false} Words64()
    ensures |BLOCK| == 64
    ensures W(BLOCK, 64) == 0x7cd45c9d && W(BLOCK, 65) == 0x000f0000 && W(BLOCK, 66) == 0xfb50753a
    ensures W(BLOCK, 67) == 0xec6765e8 && W(BLOCK, 68) == 0xba3c2be2 && W(BLOCK, 69) == 0x0060c000
    ensures W(BLOCK, 70) == 0x3a37cd05 && W(BLOCK, 71) == 0x458546f4
  {
    hide W, Xor, Or, Pow2;
    Powers();
    Sums64();
    Sums68();
    Words48();
    Words56();
    Extends(64, 0x6380aea2, 0x651d16a0, 0x626383a1, 0xda9415ed);
    Extends(65, 0x0ae55269, 0x62658ca1, 0x4ebf54de, 0x26380a16);
    Extends(66, 0x627b49a1, 0x458544d6, 0x3835b44b, 0x626383a1);
    Extends(67, 0x7cd45c9d, 0x44584cb7, 0x0000f600, 0x4ebf54de);
    Extends(68, 0x000f0000, 0x7ba06619, 0x1e84c7a3, 0x3835b44b);
    Extends(69, 0xfb50753a, 0x6380aea2, 0x98e04d98, 0x0000f600);
    Extends(70, 0xec6765e8, 0x0ae55269, 0x651d16a0, 0x1e84c7a3);
    Extends(71, 0xba3c2be2, 0x627b49a1, 0x62658ca1, 0x98e04d98);
  }

  lemma {:induction false} Sums72()
    ensures Xor(0x0060c000, 0x7cd45c9d) == 0x7cb49c9d && Xor(0x7cb49c9d, 0x458544d6) == 0x3931d84b
    ensures Xor(0x3931d84b, 0x651d16a0) == 0x5c2cceeb && Or(0xb8599dd6, 0) == 0xb8599dd6
    ensures Xor(0x3a37cd05, 0x000f0000) == 0x3a38cd05 && Xor(0x3a38cd05, 0x44584cb7) == 0x7e6081b2
    ensures Xor(0x7e6081b2, 0x62658ca1) == 0x1c050d13 && Or(0x380a1a26, 0) == 0x380a1a26
    ensures Xor(0x458546f4, 0xfb50753a) == 0xbed533ce && Xor(0xbed533ce, 0x7ba06619) == 0xc57555d7
    ensures Xor(0xc57555d7, 0x458544d6) == 0x80f01101 && Or(0x01e02202, 1) == 0x01e02203
    ensures Xor(0xb8599dd6, 0xec6765e8) == 0x543ef83e && Xor(0x543ef83e, 0x6380aea2) == 0x37be569c
    ensures Xor(0x37be569c, 0x44584cb7) == 0x73e61a2b && Or(0xe7cc3456, 0) == 0xe7cc3456
  {
  }

  lemma {:induction false} Sums76()
    ensures Xor(0x380a1a26, 0xba3c2be2) == 0x823631c4 && Xor(0x823631c4, 0x0ae55269) == 0x88d363ad
    ensures Xor(0x88d363ad, 0x7ba06619) == 0xf37305b4 && Or(0xe6e60b68, 1) == 0xe6e60b69
    ensures Xor(0x01e02203, 0x0060c000) == 0x0180e203 && Xor(0x0180e203, 0x627b49a1) == 0x63fbaba2
    ensures Xor(0x63fbaba2, 0x6380aea2) == 0x007b0500 && Or(0x00f60a00, 0) == 0x00f60a00
    ensures Xor(0xe7cc3456, 0x3a37cd05) == 0xddfbf953 && Xor(0xddfbf953, 0x7cd45c9d) == 0xa12fa5ce
    ensures Xor(0xa12fa5ce, 0x0ae55269) == 0xabcaf7a7 && Or(0x5795ef4e, 1) == 0x5795ef4f
    ensures Xor(0xe6e60b69, 0x458546f4) == 0xa3634d9d && Xor(0xa3634d9d, 0x000f0000) == 0xa36c4d9d
    ensures Xor(0xa36c4d9d, 0x627b49a1) == 0xc117043c && Or(0x822e0878, 1) == 0x822e0879
  {
  }

  lemma {:induction false} Words72()
    ensures |BLOCK| == 64
    ensures W(BLOCK, 72) == 0xb8599dd6 && W(BLOCK, 73) == 0x380a1a26 && W(BLOCK, 74) == 0x01e02203
    ensures W(BLOCK, 75) == 0xe7cc3456 && W(BLOCK, 76) == 0xe6e60b69 && W(BLOCK, 77) == 0x00f60a00
    ensures W(BLOCK, 78) == 0x5795ef4f && W(BLOCK, 79) == 0x822e0879
  {
    hide W, Xor, Or, Pow2;
    Powers();
    Sums72();
    Sums76();
    Words56();
    Words64();
    Extends(72, 0x0060c000, 0x7cd45c9d, 0x458544d6, 0x651d16a0);
    Extends(73, 0x3a37cd05, 0x000f0000, 0x44584cb7, 0x62658ca1);
    Extends(74, 0x458546f4, 0xfb50753a, 0x7ba06619, 0x458544d6);
    Extends(75, 0xb8599dd6, 0xec6765e8, 0x6380aea2, 0x44584cb7);
    Extends(76, 0x380a1a26, 0xba3c2be2, 0x0ae55269, 0x7ba06619);
    Extends(77, 0x01e02203, 0x0060c000, 0x627b49a1, 0x6380aea2);
    Extends(78, 0xe7cc3456, 0x3a37cd05, 0x7cd45c9d, 0x0ae55269);
    Extends(79, 0xe6e60b69, 0x458546f4, 0x000f0000, 0x627b49a1);
  }

  // ---- the registers -----------------------------------------------------------------------------------------

  lemma {:induction false} Operations2()
    ensures And(0xefcdab89, 0x98badcfe) == 0x88888888 && Not(0xefcdab89) == 0x10325476
    ensures And(0x10325476, 0x10325476) == 0x10325476 && Or(0x88888888, 0x10325476) == 0x98badcfe
    ensures Or(0xe8a46020, 12) == 0xe8a4602c && Or(0x40000000, 0x3bf36ae2) == 0x7bf36ae2
    ensures And(0x67452301, 0x7bf36ae2) == 0x63412200 && Not(0x67452301) == 0x98badcfe
    ensures And(0x98badcfe, 0x98badcfe) == 0x98badcfe && Or(0x63412200, 0x98badcfe) == 0xfbfbfefe
    ensures Or(0x22df8660, 0) == 0x22df8660 && Or(0x40000000, 0x19d148c0) == 0x59d148c0
  {
  }

  lemma {:induction false} Operations4()
    ensures And(0x0116fc33, 0x59d148c0) == 0x01104800 && Not(0x0116fc33) == 0xfee903cc
    ensures And(0xfee903cc, 0x7bf36ae2) == 0x7ae102c0 && Or(0x01104800, 0x7ae102c0) == 0x7bf14ac0
    ensures Or(0x320a6da0, 17) == 0x320a6db1 && Or(0xc0000000, 0x0045bf0c) == 0xc045bf0c
    ensures And(0x8990536d, 0xc045bf0c) == 0x8000130c && Not(0x8990536d) == 0x766fac92
    ensures And(0x766fac92, 0x59d148c0) == 0x50410880 && Or(0x8000130c, 0x50410880) == 0xd0411b8c
    ensures Or(0x2721e100, 20) == 0x2721e114 && Or(0x40000000, 0x226414db) == 0x626414db
  {
  }

  lemma {:induction false} Registers4()
    ensures |BLOCK| == 64 && Registers(4, 0xcdd8e11b, 0xa1390f08, 0x626414db, 0xc045bf0c, 0x59d148c0)
  {
    hide W, And, Or, Xor, Not, Registers, Rounds, Pow2;
    Powers();
    Operations2();
    Operations4();
    Words0();
    Start();
    Step(0, 0x67452301, 0xefcdab89, 0x98badcfe, 0x10325476, 0xc3d2e1f0,
         0x61626380, 0x98badcfe, 0xe8a4602c, 0x7bf36ae2, 0x0116fc33);
    Step(1, 0x0116fc33, 0x67452301, 0x7bf36ae2, 0x98badcfe, 0x10325476,
         0, 0xfbfbfefe, 0x22df8660, 0x59d148c0, 0x8990536d);
    Step(2, 0x8990536d, 0x0116fc33, 0x59d148c0, 0x7bf36ae2, 0x98badcfe,
         0, 0x7bf14ac0, 0x320a6db1, 0xc045bf0c, 0xa1390f08);
    Step(3, 0xa1390f08, 0x8990536d, 0xc045bf0c, 0x59d148c0, 0x7bf36ae2,
         0, 0xd0411b8c, 0x2721e114, 0x626414db, 0xcdd8e11b);
  }

  lemma {:induction false} Operations6()
    ensures And(0xa1390f08, 0x626414db) == 0x20200408 && Not(0xa1390f08) == 0x5ec6f0f7
    ensures And(0x5ec6f0f7, 0xc045bf0c) == 0x4044b004 && Or(0x20200408, 0x4044b004) == 0x6064b40c
    ensures Or(0xbb1c2360, 25) == 0xbb1c2379 && Or(0, 0x284e43c2) == 0x284e43c2
    ensures And(0xcdd8e11b, 0x284e43c2) == 0x08484102 && Not(0xcdd8e11b) == 0x32271ee4
    ensures And(0x32271ee4, 0x626414db) == 0x222414c0 && Or(0x08484102, 0x222414c0) == 0x2a6c55c2
    ensures Or(0xfa933bc0, 25) == 0xfa933bd9 && Or(0xc0000000, 0x33763846) == 0xf3763846
  {
  }

  lemma {:induction false} Operations8()
    ensures And(0xcfd499de, 0xf3763846) == 0xc3541846 && Not(0xcfd499de) == 0x302b6621
    ensures And(0x302b6621, 0x284e43c2) == 0x200a4200 && Or(0xc3541846, 0x200a4200) == 0xe35e5a46
    ensures Or(0xf8f94800, 7) == 0xf8f94807 && Or(0x80000000, 0x33f52677) == 0xb3f52677
    ensures And(0x3fc7ca40, 0xb3f52677) == 0x33c50240 && Not(0x3fc7ca40) == 0xc03835bf
    ensures And(0xc03835bf, 0xf3763846) == 0xc0303006 && Or(0x33c50240, 0xc0303006) == 0xf3f53246
    ensures Or(0x27c61820, 19) == 0x27c61833 && Or(0, 0x0ff1f290) == 0x0ff1f290
  {
  }

  lemma {:induction false} Registers8()
    ensures |BLOCK| == 64 && Registers(8, 0x9e8c07d4, 0x993e30c1, 0x0ff1f290, 0xb3f52677, 0xf3763846)
  {
    hide W, And, Or, Xor, Not, Registers, Rounds, Pow2;
    Powers();
    Operations6();
    Operations8();
    Registers4();
    Words0();
    Step(4, 0xcdd8e11b, 0xa1390f08, 0x626414db, 0xc045bf0c, 0x59d148c0,
         0, 0x6064b40c, 0xbb1c2379, 0x284e43c2, 0xcfd499de);
    Step(5, 0xcfd499de, 0xcdd8e11b, 0x284e43c2, 0x626414db, 0xc045bf0c,
         0, 0x2a6c55c2, 0xfa933bd9, 0xf3763846, 0x3fc7ca40);
    Step(6, 0x3fc7ca40, 0xcfd499de, 0xf3763846, 0x284e43c2, 0x626414db,
         0, 0xe35e5a46, 0xf8f94807, 0xb3f52677, 0x993e30c1);
    Step(7, 0x993e30c1, 0x3fc7ca40, 0xb3f52677, 0xf3763846, 0x284e43c2,
         0, 0xf3f53246, 0x27c61833, 0x0ff1f290, 0x9e8c07d4);
  }

  lemma {:induction false} Operations10()
    ensures And(0x993e30c1, 0x0ff1f290) == 0x09303080 && Not(0x993e30c1) == 0x66c1cf3e
    ensures And(0x66c1cf3e, 0xb3f52677) == 0x22c10636 && Or(0x09303080, 0x22c10636) == 0x2bf136b6
    ensures Or(0xd180fa80, 19) == 0xd180fa93 && Or(0x40000000, 0x264f8c30) == 0x664f8c30
    ensures And(0x9e8c07d4, 0x664f8c30) == 0x060c0410 && Not(0x9e8c07d4) == 0x6173f82b
    ensures And(0x6173f82b, 0x0ff1f290) == 0x0171f000 && Or(0x060c0410, 0x0171f000) == 0x077df410
    ensures Or(0x6d5c6500, 9) == 0x6d5c6509 && Or(0, 0x27a301f5) == 0x27a301f5
  {
  }

  lemma {:induction false} Operations12()
    ensures And(0x4b6ae328, 0x27a301f5) == 0x03220120 && Not(0x4b6ae328) == 0xb4951cd7
    ensures And(0xb4951cd7, 0x664f8c30) == 0x24050c10 && Or(0x03220120, 0x24050c10) == 0x27270d30
    ensures Or(0x6a3f2520, 16) == 0x6a3f2530 && Or(0, 0x12dab8ca) == 0x12dab8ca
    ensures And(0x8351f929, 0x12dab8ca) == 0x0250b808 && Not(0x8351f929) == 0x7cae06d6
    ensures And(0x7cae06d6, 0x27a301f5) == 0x24a200d4 && Or(0x0250b808, 0x24a200d4) == 0x26f2b8dc
    ensures Or(0x7b53d120, 31) == 0x7b53d13f && Or(0x40000000, 0x20d47e4a) == 0x60d47e4a
  {
  }

  lemma {:induction false} Registers12()
    ensures |BLOCK| == 64 && Registers(12, 0x63188fe4, 0xfbda9e89, 0x60d47e4a, 0x12dab8ca, 0x27a301f5)
  {
    hide W, And, Or, Xor, Not, Registers, Rounds, Pow2;
    Powers();
    Operations10();
    Operations12();
    Registers8();
    Words0();
    Step(8, 0x9e8c07d4, 0x993e30c1, 0x0ff1f290, 0xb3f52677, 0xf3763846,
         0, 0x2bf136b6, 0xd180fa93, 0x664f8c30, 0x4b6ae328);
    Step(9, 0x4b6ae328, 0x9e8c07d4, 0x664f8c30, 0x0ff1f290, 0xb3f52677,
         0, 0x077df410, 0x6d5c6509, 0x27a301f5, 0x8351f929);
    Step(10, 0x8351f929, 0x4b6ae328, 0x27a301f5, 0x664f8c30, 0x0ff1f290,
         0, 0x27270d30, 0x6a3f2530, 0x12dab8ca, 0xfbda9e89);
    Step(11, 0xfbda9e89, 0x8351f929, 0x12dab8ca, 0x27a301f5, 0x664f8c30,
         0, 0x26f2b8dc, 0x7b53d13f, 0x60d47e4a, 0x63188fe4);
  }

  lemma {:induction false} Operations14()
    ensures And(0xfbda9e89, 0x60d47e4a) == 0x60d01e08 && Not(0xfbda9e89) == 0x04256176
    ensures And(0x04256176, 0x12dab8ca) == 0x00002042 && Or(0x60d01e08, 0x00002042) == 0x60d03e4a
    ensures Or(0x6311fc80, 12) == 0x6311fc8c && Or(0x40000000, 0x3ef6a7a2) == 0x7ef6a7a2
    ensures And(0x63188fe4, 0x7ef6a7a2) == 0x621087a0 && Not(0x63188fe4) == 0x9ce7701b
    ensures And(0x9ce7701b, 0x60d47e4a) == 0x00c4700a && Or(0x621087a0, 0x00c4700a) == 0x62d4f7aa
    ensures Or(0xc0f6cc80, 8) == 0xc0f6cc88 && Or(0, 0x18c623f9) == 0x18c623f9
  {
  }

  lemma {:induction false} Operations16()
    ensures And(0x4607b664, 0x18c623f9) == 0x00062260 && Not(0x4607b664) == 0xb9f8499b
    ensures And(0xb9f8499b, 0x7ef6a7a2) == 0x38f00182 && Or(0x00062260, 0x38f00182) == 0x38f623e2
    ensures Or(0x251ed2a0, 18) == 0x251ed2b2 && Or(0, 0x1181ed99) == 0x1181ed99
    ensures And(0x9128f695, 0x1181ed99) == 0x1100e491 && Not(0x9128f695) == 0x6ed7096a
    ensures And(0x6ed7096a, 0x18c623f9) == 0x08c60168 && Or(0x1100e491, 0x08c60168) == 0x19c6e5f9
    ensures Or(0x2d7dcee0, 3) == 0x2d7dcee3 && Or(0x40000000, 0x244a3da5) == 0x644a3da5
  {
  }

  lemma {:induction false} Registers16()
    ensures |BLOCK| == 64 && Registers(16, 0x20bdd62f, 0x196bee77, 0x644a3da5, 0x1181ed99, 0x18c623f9)
  {
    hide W, And, Or, Xor, Not, Registers, Rounds, Pow2;
    Powers();
    Operations14();
    Operations16();
    Registers12();
    Words0();
    Step(12, 0x63188fe4, 0xfbda9e89, 0x60d47e4a, 0x12dab8ca, 0x27a301f5,
         0, 0x60d03e4a, 0x6311fc8c, 0x7ef6a7a2, 0x4607b664);
    Step(13, 0x4607b664, 0x63188fe4, 0x7ef6a7a2, 0x60d47e4a, 0x12dab8ca,
         0, 0x62d4f7aa, 0xc0f6cc88, 0x18c623f9, 0x9128f695);
    Step(14, 0x9128f695, 0x4607b664, 0x18c623f9, 0x7ef6a7a2, 0x60d47e4a,
         0, 0x38f623e2, 0x251ed2b2, 0x1181ed99, 0x196bee77);
    Step(15, 0x196bee77, 0x9128f695, 0x1181ed99, 0x18c623f9, 0x7ef6a7a2,
         24, 0x19c6e5f9, 0x2d7dcee3, 0x644a3da5, 0x20bdd62f);
  }

  lemma {:induction false} Operations18()
    ensures And(0x196bee77, 0x644a3da5) == 0x004a2c25 && Not(0x196bee77) == 0xe6941188
    ensures And(0xe6941188, 0x1181ed99) == 0x00800188 && Or(0x004a2c25, 0x00800188) == 0x00ca2dad
    ensures Or(0x17bac5e0, 4) == 0x17bac5e4 && Or(0xc0000000, 0x065afb9d) == 0xc65afb9d
    ensures And(0x20bdd62f, 0xc65afb9d) == 0x0018d20d && Not(0x20bdd62f) == 0xdf4229d0
    ensures And(0xdf4229d0, 0x644a3da5) == 0x44422980 && Or(0x0018d20d, 0x44422980) == 0x445afb8d
    ensures Or(0xd24b0460, 9) == 0xd24b0469 && Or(0xc0000000, 0x082f758b) == 0xc82f758b
  {
  }

  lemma {:induction false} Operations20()
    ensures And(0x4e925823, 0xc82f758b) == 0x48025003 && Not(0x4e925823) == 0xb16da7dc
    ensures And(0xb16da7dc, 0xc65afb9d) == 0x8048a39c && Or(0x48025003, 0x8048a39c) == 0xc84af39f
    ensures Or(0x554ce500, 16) == 0x554ce510 && Or(0xc0000000, 0x13a49608) == 0xd3a49608
    ensures And(0x82aa6728, 0xd3a49608) == 0x82a00608 && Not(0x82aa6728) == 0x7d5598d7
    ensures And(0x7d5598d7, 0xc82f758b) == 0x48051083 && Or(0x82a00608, 0x48051083) == 0xcaa5168b
    ensures Or(0x8c9203a0, 27) == 0x8c9203bb && Or(0, 0x20aa99ca) == 0x20aa99ca
  {
  }

  lemma {:induction false} Registers20()
    ensures |BLOCK| == 64 && Registers(20, 0xfd9e1d7d, 0xdc64901d, 0x20aa99ca, 0xd3a49608, 0xc82f758b)
  {
    hide W, And, Or, Xor, Not, Registers, Rounds, Pow2;
    Powers();
    Operations18();
    Operations20();
    Registers16();
    Words16();
    Step(16, 0x20bdd62f, 0x196bee77, 0x644a3da5, 0x1181ed99, 0x18c623f9,
         0xc2c4c700, 0x00ca2dad, 0x17bac5e4, 0xc65afb9d, 0x4e925823);
    Step(17, 0x4e925823, 0x20bdd62f, 0xc65afb9d, 0x644a3da5, 0x1181ed99,
         0, 0x445afb8d, 0xd24b0469, 0xc82f758b, 0x82aa6728);
    Step(18, 0x82aa6728, 0x4e925823, 0xc82f758b, 0xc65afb9d, 0x644a3da5,
         48, 0xc84af39f, 0x554ce510, 0xd3a49608, 0xdc64901d);
    Step(19, 0xdc64901d, 0x82aa6728, 0xd3a49608, 0xc82f758b, 0xc65afb9d,
         0x85898e01, 0xcaa5168b, 0x8c9203bb, 0x20aa99ca, 0xfd9e1d7d);
  }

  lemma {:induction false} Operations22()
    ensures Xor(0xdc64901d, 0x20aa99ca) == 0xfcce09d7 && Xor(0xfcce09d7, 0xd3a49608) == 0x2f6a9fdf
    ensures Or(0xb3c3afa0, 31) == 0xb3c3afbf && Or(0x40000000, 0x37192407) == 0x77192407
    ensures Xor(0xfd9e1d7d, 0x77192407) == 0x8a87397a && Xor(0x8a87397a, 0x20aa99ca) == 0xaa2da0b0
    ensures Or(0x46f61940, 3) == 0x46f61943 && Or(0x40000000, 0x3f67875f) == 0x7f67875f
  {
  }

  lemma {:induction false} Operations24()
    ensures Xor(0x1a37b0ca, 0x7f67875f) == 0x65503795 && Xor(0x65503795, 0x77192407) == 0x12491392
    ensures Or(0x74477f80, 6) == 0x74477f86 && Or(0x80000000, 0x068dec32) == 0x868dec32
    ensures Xor(0x33a23bfc, 0x868dec32) == 0xb52fd7ce && Xor(0xb52fd7ce, 0x7f67875f) == 0xca485091
    ensures Or(0x250690c0, 4) == 0x250690c4 && Or(0, 0x0ce88eff) == 0x0ce88eff
  {
  }

  lemma {:induction false} Registers24()
    ensures |BLOCK| == 64 && Registers(24, 0xd541f12d, 0x21283486, 0x0ce88eff, 0x868dec32, 0x7f67875f)
  {
    hide W, And, Or, Xor, Not, Registers, Rounds, Pow2;
    Powers();
    Operations22();
    Operations24();
    Registers20();
    Words16();
    Step(20, 0xfd9e1d7d, 0xdc64901d, 0x20aa99ca, 0xd3a49608, 0xc82f758b,
         0, 0x2f6a9fdf, 0xb3c3afbf, 0x77192407, 0x1a37b0ca);
    Step(21, 0x1a37b0ca, 0xfd9e1d7d, 0x77192407, 0x20aa99ca, 0xd3a49608,
         96, 0xaa2da0b0, 0x46f61943, 0x7f67875f, 0x33a23bfc);
    Step(22, 0x33a23bfc, 0x1a37b0ca, 0x7f67875f, 0x77192407, 0x20aa99ca,
         0x0b131c03, 0x12491392, 0x74477f86, 0x868dec32, 0x21283486);
    Step(23, 0x21283486, 0x33a23bfc, 0x868dec32, 0x7f67875f, 0x77192407,
         48, 0xca485091, 0x250690c4, 0x0ce88eff, 0xd541f12d);
  }

  lemma {:induction false} Operations26()
    ensures Xor(0x21283486, 0x0ce88eff) == 0x2dc0ba79 && Xor(0x2dc0ba79, 0x868dec32) == 0xab4d564b
    ensures Or(0xa83e25a0, 26) == 0xa83e25ba && Or(0x80000000, 0x084a0d21) == 0x884a0d21
    ensures Xor(0xd541f12d, 0x884a0d21) == 0x5d0bfc0c && Xor(0x5d0bfc0c, 0x0ce88eff) == 0x51e372f3
    ensures Or(0xeacfb8c0, 24) == 0xeacfb8d8 && Or(0x40000000, 0x35507c4b) == 0x75507c4b
  {
  }

  lemma {:induction false} Operations28()
    ensures Xor(0xc7567dc6, 0x75507c4b) == 0xb206018d && Xor(0xb206018d, 0x884a0d21) == 0x3a4c0cac
    ensures Or(0x08277480, 9) == 0x08277489 && Or(0x80000000, 0x31d59f71) == 0xb1d59f71
    ensures Xor(0x48413ba4, 0xb1d59f71) == 0xf994a4d5 && Xor(0xf994a4d5, 0x75507c4b) == 0x8cc4d89e
    ensures Or(0xc6bf7aa0, 23) == 0xc6bf7ab7 && Or(0, 0x12104ee9) == 0x12104ee9
  {
  }

  lemma {:induction false} Registers28()
    ensures |BLOCK| == 64 && Registers(28, 0x4aa84d97, 0xbe35fbd5, 0x12104ee9, 0xb1d59f71, 0x75507c4b)
  {
    hide W, And, Or, Xor, Not, Registers, Rounds, Pow2;
    Powers();
    Operations26();
    Operations28();
    Registers24();
    Words24();
    Step(24, 0xd541f12d, 0x21283486, 0x0ce88eff, 0x868dec32, 0x7f67875f,
         0x85898ec1, 0xab4d564b, 0xa83e25ba, 0x884a0d21, 0xc7567dc6);
    Step(25, 0xc7567dc6, 0xd541f12d, 0x884a0d21, 0x0ce88eff, 0x868dec32,
         0x16263806, 0x51e372f3, 0xeacfb8d8, 0x75507c4b, 0x48413ba4);
    Step(26, 0x48413ba4, 0xc7567dc6, 0x75507c4b, 0x884a0d21, 0x0ce88eff,
         0, 0x3a4c0cac, 0x08277489, 0xb1d59f71, 0xbe35fbd5);
    Step(27, 0xbe35fbd5, 0x48413ba4, 0xb1d59f71, 0x75507c4b, 0x884a0d21,
         0x00000180, 0x8cc4d89e, 0xc6bf7ab7, 0x12104ee9, 0x4aa84d97);
  }

  lemma {:induction false} Operations30()
    ensures Xor(0xbe35fbd5, 0x12104ee9) == 0xac25b53c && Xor(0xac25b53c, 0xb1d59f71) == 0x1df02a4d
    ensures Or(0x5509b2e0, 9) == 0x5509b2e9 && Or(0x40000000, 0x2f8d7ef5) == 0x6f8d7ef5
    ensures Xor(0x4aa84d97, 0x6f8d7ef5) == 0x25253362 && Xor(0x25253362, 0x12104ee9) == 0x37357d8b
    ensures Or(0x6e16a5c0, 16) == 0x6e16a5d0 && Or(0xc0000000, 0x12aa1365) == 0xd2aa1365
  {
  }

  lemma {:induction false} Operations32()
    ensures Xor(0x8370b52e, 0xd2aa1365) == 0x51daa64b && Xor(0x51daa64b, 0x6f8d7ef5) == 0x3e57d8be
    ensures Or(0xbf75eba0, 24) == 0xbf75ebb8 && Or(0x80000000, 0x20dc2d4b) == 0xa0dc2d4b
    ensures Xor(0xc5fbaf5d, 0xa0dc2d4b) == 0x65278216 && Xor(0x65278216, 0xd2aa1365) == 0xb78d9173
    ensures Or(0x4cf680e0, 2) == 0x4cf680e2 && Or(0x40000000, 0x317eebd7) == 0x717eebd7
  {
  }

  lemma {:induction false} Registers32()
    ensures |BLOCK| == 64 && Registers(32, 0x3b845d33, 0x1267b407, 0x717eebd7, 0xa0dc2d4b, 0xd2aa1365)
  {
    hide W, And, Or, Xor, Not, Registers, Rounds, Pow2;
    Powers();
    Operations30();
    Operations32();
    Registers28();
    Words24();
    Step(28, 0x4aa84d97, 0xbe35fbd5, 0x12104ee9, 0xb1d59f71, 0x75507c4b,
         0x2c4c700c, 0x1df02a4d, 0x5509b2e9, 0x6f8d7ef5, 0x8370b52e);
    Step(29, 0x8370b52e, 0x4aa84d97, 0x6f8d7ef5, 0x12104ee9, 0xb1d59f71,
         0x000000f0, 0x37357d8b, 0x6e16a5d0, 0xd2aa1365, 0xc5fbaf5d);
    Step(30, 0xc5fbaf5d, 0x8370b52e, 0xd2aa1365, 0x6f8d7ef5, 0x12104ee9,
         0x93afb507, 0x3e57d8be, 0xbf75ebb8, 0xa0dc2d4b, 0x1267b407);
    Step(31, 0x1267b407, 0xc5fbaf5d, 0xa0dc2d4b, 0xd2aa1365, 0x6f8d7ef5,
         0x5898e048, 0xb78d9173, 0x4cf680e2, 0x717eebd7, 0x3b845d33);
  }

  lemma {:induction false} Operations34()
    ensures Xor(0x1267b407, 0x717eebd7) == 0x63195fd0 && Xor(0x63195fd0, 0xa0dc2d4b) == 0xc3c5729b
    ensures Or(0x708ba660, 7) == 0x708ba667 && Or(0xc0000000, 0x0499ed01) == 0xc499ed01
    ensures Xor(0x3b845d33, 0xc499ed01) == 0xff1db032 && Xor(0xff1db032, 0x717eebd7) == 0x8e635be5
    ensures Or(0x8df54140, 0) == 0x8df54140 && Or(0xc0000000, 0x0ee1174c) == 0xcee1174c
  {
  }

  lemma {:induction false} Operations36()
    ensures Xor(0x046faa0a, 0xcee1174c) == 0xca8ebd46 && Xor(0xca8ebd46, 0xc499ed01) == 0x0e175047
    ensures Or(0x81d78220, 5) == 0x81d78225 && Or(0x80000000, 0x011bea82) == 0x811bea82
    ensures Xor(0x2c0ebc11, 0x811bea82) == 0xad155693 && Xor(0xad155693, 0xcee1174c) == 0x63f441df
    ensures Or(0x2f2d5a80, 4) == 0x2f2d5a84 && Or(0x40000000, 0x0b03af04) == 0x4b03af04
  {
  }

  lemma {:induction false} Registers36()
    ensures |BLOCK| == 64 && Registers(36, 0xdcbbb0cb, 0x21796ad4, 0x4b03af04, 0x811bea82, 0xcee1174c)
  {
    hide W, And, Or, Xor, Not, Registers, Rounds, Pow2;
    Powers();
    Operations34();
    Operations36();
    Registers32();
    Words32();
    Step(32, 0x3b845d33, 0x1267b407, 0x717eebd7, 0xa0dc2d4b, 0xd2aa1365,
         0x8e9a9202, 0xc3c5729b, 0x708ba667, 0xc499ed01, 0x046faa0a);
    Step(33, 0x046faa0a, 0x3b845d33, 0xc499ed01, 0x717eebd7, 0xa0dc2d4b,
         0x00000600, 0x8e635be5, 0x8df54140, 0xcee1174c, 0x2c0ebc11);
    Step(34, 0x2c0ebc11, 0x046faa0a, 0xcee1174c, 0xc499ed01, 0x717eebd7,
         0xb131c0f0, 0x0e175047, 0x81d78225, 0x811bea82, 0x21796ad4);
    Step(35, 0x21796ad4, 0x2c0ebc11, 0x811bea82, 0xcee1174c, 0xc499ed01,
         0x16263bc6, 0x63f441df, 0x2f2d5a84, 0x4b03af04, 0xdcbbb0cb);
  }

  lemma {:induction false} Operations38()
    ensures Xor(0x21796ad4, 0x4b03af04) == 0x6a7ac5d0 && Xor(0x6a7ac5d0, 0x811bea82) == 0xeb612f52
    ensures Or(0x97761960, 27) == 0x9776197b && Or(0, 0x085e5ab5) == 0x085e5ab5
    ensures Xor(0xdcbbb0cb, 0x085e5ab5) == 0xd4e5ea7e && Xor(0xd4e5ea7e, 0x4b03af04) == 0x9fe6457a
    ensures Or(0xea23fb00, 1) == 0xea23fb01 && Or(0xc0000000, 0x372eec32) == 0xf72eec32
  {
  }

  lemma {:induction false} Operations40()
    ensures Xor(0x0f511fd8, 0xf72eec32) == 0xf87ff3ea && Xor(0xf87ff3ea, 0x085e5ab5) == 0xf021a95f
    ensures Or(0x8c72e7e0, 27) == 0x8c72e7fb && Or(0, 0x03d447f6) == 0x03d447f6
    ensures Xor(0xdc63973f, 0x03d447f6) == 0xdfb7d0c9 && Xor(0xdfb7d0c9, 0xf72eec32) == 0x28993cfb
    ensures Or(0x930c80a0, 9) == 0x930c80a9 && Or(0xc0000000, 0x3718e5cf) == 0xf718e5cf
  {
  }

  lemma {:induction false} Registers40()
    ensures |BLOCK| == 64 && Registers(40, 0x32de1cba, 0x4c986405, 0xf718e5cf, 0x03d447f6, 0xf72eec32)
  {
    hide W, And, Or, Xor, Not, Registers, Rounds, Pow2;
    Powers();
    Operations38();
    Operations40();
    Registers36();
    Words32();
    Step(36, 0xdcbbb0cb, 0x21796ad4, 0x4b03af04, 0x811bea82, 0xcee1174c,
         0x4ebed41e, 0xeb612f52, 0x9776197b, 0x085e5ab5, 0x0f511fd8);
    Step(37, 0x0f511fd8, 0xdcbbb0cb, 0x085e5ab5, 0x4b03af04, 0x811bea82,
         0x626380a1, 0x9fe6457a, 0xea23fb01, 0xf72eec32, 0xdc63973f);
    Step(38, 0xdc63973f, 0x0f511fd8, 0xf72eec32, 0x085e5ab5, 0x4b03af04,
         0x16263806, 0xf021a95f, 0x8c72e7fb, 0x03d447f6, 0x4c986405);
    Step(39, 0x4c986405, 0xdc63973f, 0x03d447f6, 0xf72eec32, 0x085e5ab5,
         0x000018c0, 0x28993cfb, 0x930c80a9, 0xf718e5cf, 0x32de1cba);
  }

  lemma {:induction false} Operations42()
    ensures And(0x4c986405, 0xf718e5cf) == 0x44186405 && And(0x4c986405, 0x03d447f6) == 0x00904404
    ensures And(0xf718e5cf, 0x03d447f6) == 0x031045c6 && Or(0x44186405, 0x00904404) == 0x44986405
    ensures Or(0x44986405, 0x031045c6) == 0x479865c7 && Or(0x5bc39740, 6) == 0x5bc39746
    ensures Or(0x40000000, 0x13261901) == 0x53261901 && And(0x32de1cba, 0x53261901) == 0x12061800
    ensures And(0x32de1cba, 0xf718e5cf) == 0x3218048a && And(0x53261901, 0xf718e5cf) == 0x53000101
    ensures Or(0x12061800, 0x3218048a) == 0x321e1c8a && Or(0x321e1c8a, 0x53000101) == 0x731e1d8b
    ensures Or(0x90fbdbe0, 31) == 0x90fbdbff && Or(0x80000000, 0x0cb7872e) == 0x8cb7872e
  {
  }

  lemma {:induction false} Operations44()
    ensures And(0xfc87dedf, 0x8cb7872e) == 0x8c87860e && And(0xfc87dedf, 0x53261901) == 0x50061801
    ensures And(0x8cb7872e, 0x53261901) == 0x00260100 && Or(0x8c87860e, 0x50061801) == 0xdc879e0f
    ensures Or(0xdc879e0f, 0x00260100) == 0xdca79f0f && Or(0xe141ab80, 18) == 0xe141ab92
    ensures Or(0xc0000000, 0x3f21f7b7) == 0xff21f7b7 && And(0x970a0d5c, 0xff21f7b7) == 0x97000514
    ensures And(0x970a0d5c, 0x8cb7872e) == 0x8402050c && And(0xff21f7b7, 0x8cb7872e) == 0x8c218726
    ensures Or(0x97000514, 0x8402050c) == 0x9702051c && Or(0x9702051c, 0x8c218726) == 0x9f23873e
    ensures Or(0xe327b8a0, 15) == 0xe327b8af && Or(0, 0x25c28357) == 0x25c28357
  {
  }

  lemma {:induction false} Registers44()
    ensures |BLOCK| == 64 && Registers(44, 0xee1b1aaf, 0x7f193dc5, 0x25c28357, 0xff21f7b7, 0x8cb7872e)
  {
    hide W, And, Or, Xor, Not, Registers, Rounds, Pow2;
    Powers();
    Operations42();
    Operations44();
    Registers40();
    Words40();
    Step(40, 0x32de1cba, 0x4c986405, 0xf718e5cf, 0x03d447f6, 0xf72eec32,
         0xd2e138c4, 0x479865c7, 0x5bc39746, 0x53261901, 0xfc87dedf);
    Step(41, 0xfc87dedf, 0x32de1cba, 0x53261901, 0xf718e5cf, 0x03d447f6,
         0x00000f00, 0x731e1d8b, 0x90fbdbff, 0x8cb7872e, 0x970a0d5c);
    Step(42, 0x970a0d5c, 0xfc87dedf, 0x8cb7872e, 0x53261901, 0xf718e5cf,
         0x3afb5079, 0xdca79f0f, 0xe141ab92, 0xff21f7b7, 0x7f193dc5);
    Step(43, 0x7f193dc5, 0x970a0d5c, 0xff21f7b7, 0x8cb7872e, 0x53261901,
         0x898e04e5, 0x9f23873e, 0xe327b8af, 0x25c28357, 0xee1b1aaf);
  }

  lemma {:induction false} Operations46()
    ensures And(0x7f193dc5, 0x25c28357) == 0x25000145 && And(0x7f193dc5, 0xff21f7b7) == 0x7f013585
    ensures And(0x25c28357, 0xff21f7b7) == 0x25008317 && Or(0x25000145, 0x7f013585) == 0x7f0135c5
    ensures Or(0x7f0135c5, 0x25008317) == 0x7f01b7d7 && Or(0xc36355e0, 29) == 0xc36355fd
    ensures Or(0x40000000, 0x1fc64f71) == 0x5fc64f71 && And(0xee1b1aaf, 0x5fc64f71) == 0x4e020a21
    ensures And(0xee1b1aaf, 0x25c28357) == 0x24020207 && And(0x5fc64f71, 0x25c28357) == 0x05c20351
    ensures Or(0x4e020a21, 0x24020207) == 0x6e020a27 && Or(0x6e020a27, 0x05c20351) == 0x6fc20b77
    ensures Or(0x1e51c120, 8) == 0x1e51c128 && Or(0xc0000000, 0x3b86c6ab) == 0xfb86c6ab
  {
  }

  lemma {:induction false} Operations48()
    ensures And(0x40f28e09, 0xfb86c6ab) == 0x40828609 && And(0x40f28e09, 0x5fc64f71) == 0x40c20e01
    ensures And(0xfb86c6ab, 0x5fc64f71) == 0x5b864621 && Or(0x40828609, 0x40c20e01) == 0x40c28e09
    ensures Or(0x40c28e09, 0x5b864621) == 0x5bc6ce29 && Or(0x8a3c3e40, 3) == 0x8a3c3e43
    ensures Or(0x40000000, 0x103ca382) == 0x503ca382 && And(0x1c51e1f2, 0x503ca382) == 0x1010a182
    ensures And(0x1c51e1f2, 0xfb86c6ab) == 0x1800c0a2 && And(0x503ca382, 0xfb86c6ab) == 0x50048282
    ensures Or(0x1010a182, 0x1800c0a2) == 0x1810e1a2 && Or(0x1810e1a2, 0x50048282) == 0x5814e3a2
    ensures Or(0x03708d80, 20) == 0x03708d94 && Or(0x80000000, 0x0714787c) == 0x8714787c
  {
  }

  lemma {:induction false} Registers48()
    ensures |BLOCK| == 64 && Registers(48, 0xbead02ca, 0xa01b846c, 0x8714787c, 0x503ca382, 0xfb86c6ab)
  {
    hide W, And, Or, Xor, Not, Registers, Rounds, Pow2;
    Powers();
    Operations46();
    Operations48();
    Registers44();
    Words40();
    Step(44, 0xee1b1aaf, 0x7f193dc5, 0x25c28357, 0xff21f7b7, 0x8cb7872e,
         0xe2ba3c2b, 0x7f01b7d7, 0xc36355fd, 0x5fc64f71, 0x40f28e09);
    Step(45, 0x40f28e09, 0xee1b1aaf, 0x5fc64f71, 0x25c28357, 0xff21f7b7,
         0x000060c0, 0x6fc20b77, 0x1e51c128, 0xfb86c6ab, 0x1c51e1f2);
    Step(46, 0x1c51e1f2, 0x40f28e09, 0xfb86c6ab, 0x5fc64f71, 0x25c28357,
         0x053a37cd, 0x5bc6ce29, 0x8a3c3e43, 0x503ca382, 0xa01b846c);
    Step(47, 0xa01b846c, 0x1c51e1f2, 0x503ca382, 0xfb86c6ab, 0x5fc64f71,
         0x74458547, 0x5814e3a2, 0x03708d94, 0x8714787c, 0xbead02ca);
  }

  lemma {:induction false} Operations50()
    ensures And(0xa01b846c, 0x8714787c) == 0x8010006c && And(0xa01b846c, 0x503ca382) == 0x00188000
    ensures And(0x8714787c, 0x503ca382) == 0x00142000 && Or(0x8010006c, 0x00188000) == 0x8018806c
    ensures Or(0x8018806c, 0x00142000) == 0x801ca06c && Or(0xd5a05940, 23) == 0xd5a05957
    ensures Or(0, 0x2806e11b) == 0x2806e11b && And(0xbead02ca, 0x2806e11b) == 0x2804000a
    ensures And(0xbead02ca, 0x8714787c) == 0x86040048 && And(0x2806e11b, 0x8714787c) == 0x00046018
    ensures Or(0x2804000a, 0x86040048) == 0xae04004a && Or(0xae04004a, 0x00046018) == 0xae04605a
    ensures Or(0x5e7266e0, 23) == 0x5e7266f7 && Or(0x80000000, 0x2fab40b2) == 0xafab40b2
  {
  }

  lemma {:induction false} Operations52()
    ensures And(0xbaf39337, 0xafab40b2) == 0xaaa30032 && And(0xbaf39337, 0x2806e11b) == 0x28028113
    ensures And(0xafab40b2, 0x2806e11b) == 0x28024012 && Or(0xaaa30032, 0x28028113) == 0xaaa38133
    ensures Or(0xaaa38133, 0x28024012) == 0xaaa3c133 && Or(0x40e638a0, 2) == 0x40e638a2
    ensures Or(0xc0000000, 0x2ebce4cd) == 0xeebce4cd && And(0x120731c5, 0xeebce4cd) == 0x020420c5
    ensures And(0x120731c5, 0xafab40b2) == 0x02030080 && And(0xeebce4cd, 0xafab40b2) == 0xaea84080
    ensures Or(0x020420c5, 0x02030080) == 0x020720c5 && Or(0x020720c5, 0xaea84080) == 0xaeaf60c5
    ensures Or(0x83b659c0, 12) == 0x83b659cc && Or(0x40000000, 0x0481cc71) == 0x4481cc71
  {
  }

  lemma {:induction false} Registers52()
    ensures |BLOCK| == 64 && Registers(52, 0x3847ad66, 0x641db2ce, 0x4481cc71, 0xeebce4cd, 0xafab40b2)
  {
    hide W, And, Or, Xor, Not, Registers, Rounds, Pow2;
    Powers();
    Operations50();
    Operations52();
    Registers48();
    Words48();
    Step(48, 0xbead02ca, 0xa01b846c, 0x8714787c, 0x503ca382, 0xfb86c6ab,
         0xda9415ed, 0x801ca06c, 0xd5a05957, 0x2806e11b, 0xbaf39337);
    Step(49, 0xbaf39337, 0xbead02ca, 0x2806e11b, 0x8714787c, 0x503ca382,
         0x26380a16, 0xae04605a, 0x5e7266f7, 0xafab40b2, 0x120731c5);
    Step(50, 0x120731c5, 0xbaf39337, 0xafab40b2, 0x2806e11b, 0x8714787c,
         0x626383a1, 0xaaa3c133, 0x40e638a2, 0xeebce4cd, 0x641db2ce);
    Step(51, 0x641db2ce, 0x120731c5, 0xeebce4cd, 0xafab40b2, 0x2806e11b,
         0x4ebf54de, 0xaeaf60c5, 0x83b659cc, 0x4481cc71, 0x3847ad66);
  }

  lemma {:induction false} Operations54()
    ensures And(0x641db2ce, 0x4481cc71) == 0x44018040 && And(0x641db2ce, 0xeebce4cd) == 0x641ca0cc
    ensures And(0x4481cc71, 0xeebce4cd) == 0x4480c441 && Or(0x44018040, 0x641ca0cc) == 0x641da0cc
    ensures Or(0x641da0cc, 0x4480c441) == 0x649de4cd && Or(0x08f5acc0, 7) == 0x08f5acc7
    ensures Or(0x80000000, 0x19076cb3) == 0x99076cb3 && And(0x3847ad66, 0x99076cb3) == 0x18072c22
    ensures And(0x3847ad66, 0x4481cc71) == 0x00018c60 && And(0x99076cb3, 0x4481cc71) == 0x00014c31
    ensures Or(0x18072c22, 0x00018c60) == 0x1807ac62 && Or(0x1807ac62, 0x00014c31) == 0x1807ec73
    ensures Or(0x92086da0, 28) == 0x92086dbc && Or(0x80000000, 0x0e11eb59) == 0x8e11eb59
  {
  }

  lemma {:induction false} Operations56()
    ensures And(0xe490436d, 0x8e11eb59) == 0x84104349 && And(0xe490436d, 0x99076cb3) == 0x80004021
    ensures And(0x8e11eb59, 0x99076cb3) == 0x88016811 && Or(0x84104349, 0x80004021) == 0x84104369
    ensures Or(0x84104369, 0x88016811) == 0x8c116b79 && Or(0xfd3e3b00, 4) == 0xfd3e3b04
    ensures Or(0x40000000, 0x392410db) == 0x792410db && And(0x27e9f1d8, 0x792410db) == 0x212010d8
    ensures And(0x27e9f1d8, 0x8e11eb59) == 0x0601e158 && And(0x792410db, 0x8e11eb59) == 0x08000059
    ensures Or(0x212010d8, 0x0601e158) == 0x2721f1d8 && Or(0x2721f1d8, 0x08000059) == 0x2f21f1d9
    ensures Or(0x6e3eeda0, 15) == 0x6e3eedaf && Or(0, 0x09fa7c76) == 0x09fa7c76
  {
  }

  lemma {:induction false} Registers56()
    ensures |BLOCK| == 64 && Registers(56, 0x5e6456af, 0x7b71f76d, 0x09fa7c76, 0x792410db, 0x8e11eb59)
  {
    hide W, And, Or, Xor, Not, Registers, Rounds, Pow2;
    Powers();
    Operations54();
    Operations56();
    Registers52();
    Words48();
    Step(52, 0x3847ad66, 0x641db2ce, 0x4481cc71, 0xeebce4cd, 0xafab40b2,
         0x3835b44b, 0x649de4cd, 0x08f5acc7, 0x99076cb3, 0xe490436d);
    Step(53, 0xe490436d, 0x3847ad66, 0x99076cb3, 0x4481cc71, 0xeebce4cd,
         0x0000f600, 0x1807ec73, 0x92086dbc, 0x8e11eb59, 0x27e9f1d8);
    Step(54, 0x27e9f1d8, 0xe490436d, 0x8e11eb59, 0x99076cb3, 0x4481cc71,
         0x1e84c7a3, 0x8c116b79, 0xfd3e3b04, 0x792410db, 0x7b71f76d);
    Step(55, 0x7b71f76d, 0x27e9f1d8, 0x792410db, 0x8e11eb59, 0x99076cb3,
         0x98e04d98, 0x2f21f1d9, 0x6e3eedaf, 0x09fa7c76, 0x5e6456af);
  }

  lemma {:induction false} Operations58()
    ensures And(0x7b71f76d, 0x09fa7c76) == 0x09707464 && And(0x7b71f76d, 0x792410db) == 0x79201049
    ensures And(0x09fa7c76, 0x792410db) == 0x09201052 && Or(0x09707464, 0x79201049) == 0x7970746d
    ensures Or(0x7970746d, 0x09201052) == 0x7970747f && Or(0xcc8ad5e0, 11) == 0xcc8ad5eb
    ensures Or(0x40000000, 0x1edc7ddb) == 0x5edc7ddb && And(0x5e6456af, 0x5edc7ddb) == 0x5e44548b
    ensures And(0x5e6456af, 0x09fa7c76) == 0x08605426 && And(0x5edc7ddb, 0x09fa7c76) == 0x08d87c52
    ensures Or(0x5e44548b, 0x08605426) == 0x5e6454af && Or(0x5e6454af, 0x08d87c52) == 0x5efc7cff
    ensures Or(0x08c127e0, 25) == 0x08c127f9 && Or(0xc0000000, 0x179915ab) == 0xd79915ab
  {
  }

  lemma {:induction false} Operations60()
    ensures And(0xc846093f, 0xd79915ab) == 0xc000012b && And(0xc846093f, 0x5edc7ddb) == 0x4844091b
    ensures And(0xd79915ab, 0x5edc7ddb) == 0x5698158b && Or(0xc000012b, 0x4844091b) == 0xc844093b
    ensures Or(0xc844093b, 0x5698158b) == 0xdedc1dbb && Or(0x4c5fea00, 26) == 0x4c5fea1a
    ensures Or(0xc0000000, 0x3211824f) == 0xf211824f && And(0xd262ff50, 0xf211824f) == 0xd2008240
    ensures And(0xd262ff50, 0xd79915ab) == 0xd2001500 && And(0xf211824f, 0xd79915ab) == 0xd211000b
    ensures Or(0xd2008240, 0xd2001500) == 0xd2009740 && Or(0xd2009740, 0xd211000b) == 0xd211974b
    ensures Or(0x3af0bfa0, 1) == 0x3af0bfa1 && Or(0, 0x3498bfd4) == 0x3498bfd4
  {
  }

  lemma {:induction false} Registers60()
    ensures |BLOCK| == 64 && Registers(60, 0x3f52de5a, 0x09d785fd, 0x3498bfd4, 0xf211824f, 0xd79915ab)
  {
    hide W, And, Or, Xor, Not, Registers, Rounds, Pow2;
    Powers();
    Operations58();
    Operations60();
    Registers56();
    Words56();
    Step(56, 0x5e6456af, 0x7b71f76d, 0x09fa7c76, 0x792410db, 0x8e11eb59,
         0x651d16a0, 0x7970747f, 0xcc8ad5eb, 0x5edc7ddb, 0xc846093f);
    Step(57, 0xc846093f, 0x5e6456af, 0x5edc7ddb, 0x09fa7c76, 0x792410db,
         0x62658ca1, 0x5efc7cff, 0x08c127f9, 0xd79915ab, 0xd262ff50);
    Step(58, 0xd262ff50, 0xc846093f, 0xd79915ab, 0x5edc7ddb, 0x09fa7c76,
         0x458544d6, 0xdedc1dbb, 0x4c5fea1a, 0xf211824f, 0x09d785fd);
    Step(59, 0x09d785fd, 0xd262ff50, 0xf211824f, 0xd79915ab, 0x5edc7ddb,
         0x44584cb7, 0xd211974b, 0x3af0bfa1, 0x3498bfd4, 0x3f52de5a);
  }

  lemma {:induction false} Operations62()
    ensures Xor(0x09d785fd, 0x3498bfd4) == 0x3d4f3a29 && Xor(0x3d4f3a29, 0xf211824f) == 0xcf5eb866
    ensures Or(0xea5bcb40, 7) == 0xea5bcb47 && Or(0x40000000, 0x0275e17f) == 0x4275e17f
    ensures Xor(0x3f52de5a, 0x4275e17f) == 0x7d273f25 && Xor(0x7d273f25, 0x3498bfd4) == 0x49bf80f1
    ensures Or(0xead828e0, 26) == 0xead828fa && Or(0x80000000, 0x0fd4b796) == 0x8fd4b796
  {
  }

  lemma {:induction false} Operations64()
    ensures Xor(0xd756c147, 0x8fd4b796) == 0x588276d1 && Xor(0x588276d1, 0x4275e17f) == 0x1af797ae
    ensures Or(0x91939640, 10) == 0x9193964a && Or(0xc0000000, 0x35d5b051) == 0xf5d5b051
    ensures Xor(0x548c9cb2, 0xf5d5b051) == 0xa1592ce3 && Xor(0xa1592ce3, 0x8fd4b796) == 0x2e8d9b75
    ensures Or(0xcd804160, 22) == 0xcd804176 && Or(0x80000000, 0x1523272c) == 0x9523272c
  {
  }

  lemma {:induction false} Registers64()
    ensures |BLOCK| == 64 && Registers(64, 0x6b61c9e1, 0xb66c020b, 0x9523272c, 0xf5d5b051, 0x8fd4b796)
  {
    hide W, And, Or, Xor, Not, Registers, Rounds, Pow2;
    Powers();
    Operations62();
    Operations64();
    Registers60();
    Words56();
    Step(60, 0x3f52de5a, 0x09d785fd, 0x3498bfd4, 0xf211824f, 0xd79915ab,
         0x7ba06619, 0xcf5eb866, 0xea5bcb47, 0x4275e17f, 0xd756c147);
    Step(61, 0xd756c147, 0x3f52de5a, 0x4275e17f, 0x3498bfd4, 0xf211824f,
         0x6380aea2, 0x49bf80f1, 0xead828fa, 0x8fd4b796, 0x548c9cb2);
    Step(62, 0x548c9cb2, 0xd756c147, 0x8fd4b796, 0x4275e17f, 0x3498bfd4,
         0x0ae55269, 0x1af797ae, 0x9193964a, 0xf5d5b051, 0xb66c020b);
    Step(63, 0xb66c020b, 0x548c9cb2, 0xf5d5b051, 0x8fd4b796, 0x4275e17f,
         0x627b49a1, 0x2e8d9b75, 0xcd804176, 0x9523272c, 0x6b61c9e1);
  }

  lemma {:induction false} Operations66()
    ensures Xor(0xb66c020b, 0x9523272c) == 0x234f2527 && Xor(0x234f2527, 0xf5d5b051) == 0xd69a9576
    ensures Or(0x6c393c20, 13) == 0x6c393c2d && Or(0xc0000000, 0x2d9b0082) == 0xed9b0082
    ensures Xor(0x6b61c9e1, 0xed9b0082) == 0x86fac963 && Xor(0x86fac963, 0x9523272c) == 0x13d9ee4f
    ensures Or(0x3bf4f580, 3) == 0x3bf4f583 && Or(0x40000000, 0x1ad87278) == 0x5ad87278
  {
  }

  lemma {:induction false} Operations68()
    ensures Xor(0x19dfa7ac, 0x5ad87278) == 0x4307d5d4 && Xor(0x4307d5d4, 0xed9b0082) == 0xae9cd556
    ensures Or(0x02cabf20, 2) == 0x02cabf22 && Or(0, 0x0677e9eb) == 0x0677e9eb
    ensures Xor(0x101655f9, 0x0677e9eb) == 0x1661bc12 && Xor(0x1661bc12, 0x5ad87278) == 0x4cb9ce6a
    ensures Or(0x87be5680, 1) == 0x87be5681 && Or(0x40000000, 0x0405957e) == 0x4405957e
  {
  }

  lemma {:induction false} Registers68()
    ensures |BLOCK| == 64 && Registers(68, 0x78dd4d2b, 0x0c3df2b4, 0x4405957e, 0x0677e9eb, 0x5ad87278)
  {
    hide W, And, Or, Xor, Not, Registers, Rounds, Pow2;
    Powers();
    Operations66();
    Operations68();
    Registers64();
    Words64();
    Step(64, 0x6b61c9e1, 0xb66c020b, 0x9523272c, 0xf5d5b051, 0x8fd4b796,
         0x7cd45c9d, 0xd69a9576, 0x6c393c2d, 0xed9b0082, 0x19dfa7ac);
    Step(65, 0x19dfa7ac, 0x6b61c9e1, 0xed9b0082, 0x9523272c, 0xf5d5b051,
         0x000f0000, 0x13d9ee4f, 0x3bf4f583, 0x5ad87278, 0x101655f9);
    Step(66, 0x101655f9, 0x19dfa7ac, 0x5ad87278, 0xed9b0082, 0x9523272c,
         0xfb50753a, 0xae9cd556, 0x02cabf22, 0x0677e9eb, 0x0c3df2b4);
    Step(67, 0x0c3df2b4, 0x101655f9, 0x0677e9eb, 0x5ad87278, 0xed9b0082,
         0xec6765e8, 0x4cb9ce6a, 0x87be5681, 0x4405957e, 0x78dd4d2b);
  }

  lemma {:induction false} Operations70()
    ensures Xor(0x0c3df2b4, 0x4405957e) == 0x483867ca && Xor(0x483867ca, 0x0677e9eb) == 0x4e4f8e21
    ensures Or(0x1ba9a560, 15) == 0x1ba9a56f && Or(0, 0x030f7cad) == 0x030f7cad
    ensures Xor(0x78dd4d2b, 0x030f7cad) == 0x7bd23186 && Xor(0x7bd23186, 0x4405957e) == 0x3fd7a4f8
    ensures Or(0x2e127800, 9) == 0x2e127809 && Or(0xc0000000, 0x1e37534a) == 0xde37534a
  {
  }

  lemma {:induction false} Operations72()
    ensures Xor(0x497093c0, 0xde37534a) == 0x9747c08a && Xor(0x9747c08a, 0x030f7cad) == 0x9448bc27
    ensures Or(0xe4b11840, 7) == 0xe4b11847 && Or(0, 0x125c24f0) == 0x125c24f0
    ensures Xor(0x3f2588c2, 0x125c24f0) == 0x2d79ac32 && Xor(0x2d79ac32, 0xde37534a) == 0xf34eff78
    ensures Or(0x333f18e0, 24) == 0x333f18f8 && Or(0x80000000, 0x0fc96230) == 0x8fc96230
  {
  }

  lemma {:induction false} Registers72()
    ensures |BLOCK| == 64 && Registers(72, 0x39859de7, 0xc199f8c7, 0x8fc96230, 0x125c24f0, 0xde37534a)
  {
    hide W, And, Or, Xor, Not, Registers, Rounds, Pow2;
    Powers();
    Operations70();
    Operations72();
    Registers68();
    Words64();
    Step(68, 0x78dd4d2b, 0x0c3df2b4, 0x4405957e, 0x0677e9eb, 0x5ad87278,
         0xba3c2be2, 0x4e4f8e21, 0x1ba9a56f, 0x030f7cad, 0x497093c0);
    Step(69, 0x497093c0, 0x78dd4d2b, 0x030f7cad, 0x4405957e, 0x0677e9eb,
         0x0060c000, 0x3fd7a4f8, 0x2e127809, 0xde37534a, 0x3f2588c2);
    Step(70, 0x3f2588c2, 0x497093c0, 0xde37534a, 0x030f7cad, 0x4405957e,
         0x3a37cd05, 0x9448bc27, 0xe4b11847, 0x125c24f0, 0xc199f8c7);
    Step(71, 0xc199f8c7, 0x3f2588c2, 0x125c24f0, 0xde37534a, 0x030f7cad,
         0x458546f4, 0xf34eff78, 0x333f18f8, 0x8fc96230, 0x39859de7);
  }

  lemma {:induction false} Operations74()
    ensures Xor(0xc199f8c7, 0x8fc96230) == 0x4e509af7 && Xor(0x4e509af7, 0x125c24f0) == 0x5c0cbe07
    ensures Or(0x30b3bce0, 7) == 0x30b3bce7 && Or(0xc0000000, 0x30667e31) == 0xf0667e31
    ensures Xor(0x39859de7, 0xf0667e31) == 0xc9e3e3d6 && Xor(0xc9e3e3d6, 0x8fc96230) == 0x462a81e6
    ensures Or(0xb685bc80, 29) == 0xb685bc9d && Or(0xc0000000, 0x0e616779) == 0xce616779
  {
  }

  lemma {:induction false} Operations76()
    ensures Xor(0xedb42de4, 0xce616779) == 0x23d54a9d && Xor(0x23d54a9d, 0xf0667e31) == 0xd3b334ac
    ensures Or(0x2f27ede0, 2) == 0x2f27ede2 && Or(0, 0x3b6d0b79) == 0x3b6d0b79
    ensures Xor(0x11793f6f, 0x3b6d0b79) == 0x2a143416 && Xor(0x2a143416, 0xce616779) == 0xe475536f
    ensures Or(0xdced12e0, 11) == 0xdced12eb && Or(0xc0000000, 0x045e4fdb) == 0xc45e4fdb
  {
  }

  lemma {:induction false} Registers76()
    ensures |BLOCK| == 64 && Registers(76, 0x63f7dab7, 0x5ee76897, 0xc45e4fdb, 0x3b6d0b79, 0xce616779)
  {
    hide W, And, Or, Xor, Not, Registers, Rounds, Pow2;
    Powers();
    Operations74();
    Operations76();
    Registers72();
    Words72();
    Step(72, 0x39859de7, 0xc199f8c7, 0x8fc96230, 0x125c24f0, 0xde37534a,
         0xb8599dd6, 0x5c0cbe07, 0x30b3bce7, 0xf0667e31, 0xedb42de4);
    Step(73, 0xedb42de4, 0x39859de7, 0xf0667e31, 0x8fc96230, 0x125c24f0,
         0x380a1a26, 0x462a81e6, 0xb685bc9d, 0xce616779, 0x11793f6f);
    Step(74, 0x11793f6f, 0xedb42de4, 0xce616779, 0xf0667e31, 0x8fc96230,
         0x01e02203, 0xd3b334ac, 0x2f27ede2, 0x3b6d0b79, 0x5ee76897);
    Step(75, 0x5ee76897, 0x11793f6f, 0x3b6d0b79, 0xce616779, 0xf0667e31,
         0xe7cc3456, 0xe475536f, 0xdced12eb, 0xc45e4fdb, 0x63f7dab7);
  }

  lemma {:induction false} Operations78()
    ensures Xor(0x5ee76897, 0xc45e4fdb) == 0x9ab9274c && Xor(0x9ab9274c, 0x3b6d0b79) == 0xa1d42c35
    ensures Or(0x7efb56e0, 12) == 0x7efb56ec && Or(0xc0000000, 0x17b9da25) == 0xd7b9da25
    ensures Xor(0x63f7dab7, 0xd7b9da25) == 0xb44e0092 && Xor(0xb44e0092, 0xc45e4fdb) == 0x70104f49
    ensures Or(0x0f36fb20, 20) == 0x0f36fb34 && Or(0xc0000000, 0x18fdf6ad) == 0xd8fdf6ad
  {
  }

  lemma {:induction false} Operations80()
    ensures Xor(0xa079b7d9, 0xd8fdf6ad) == 0x78844174 && Xor(0x78844174, 0xd7b9da25) == 0xaf3d9b51
    ensures Or(0xc1a43980, 16) == 0xc1a43990 && Or(0x40000000, 0x281e6df6) == 0x681e6df6
    ensures Xor(0x860d21cc, 0x681e6df6) == 0xee134c3a && Xor(0xee134c3a, 0xd8fdf6ad) == 0x36eeba97
    ensures Or(0xe71abc20, 10) == 0xe71abc2a && Or(0, 0x21834873) == 0x21834873
  {
  }

  lemma {:induction false} Registers80()
    ensures |BLOCK| == 64 && Registers(80, 0x42541b35, 0x5738d5e1, 0x21834873, 0x681e6df6, 0xd8fdf6ad)
  {
    hide W, And, Or, Xor, Not, Registers, Rounds, Pow2;
    Powers();
    Operations78();
    Operations80();
    Registers76();
    Words72();
    Step(76, 0x63f7dab7, 0x5ee76897, 0xc45e4fdb, 0x3b6d0b79, 0xce616779,
         0xe6e60b69, 0xa1d42c35, 0x7efb56ec, 0xd7b9da25, 0xa079b7d9);
    Step(77, 0xa079b7d9, 0x63f7dab7, 0xd7b9da25, 0xc45e4fdb, 0x3b6d0b79,
         0x00f60a00, 0x70104f49, 0x0f36fb34, 0xd8fdf6ad, 0x860d21cc);
    Step(78, 0x860d21cc, 0xa079b7d9, 0xd8fdf6ad, 0xd7b9da25, 0xc45e4fdb,
         0x5795ef4f, 0xaf3d9b51, 0xc1a43990, 0x681e6df6, 0x5738d5e1);
    Step(79, 0x5738d5e1, 0x860d21cc, 0x681e6df6, 0xd8fdf6ad, 0xd7b9da25,
         0x822e0879, 0x36eeba97, 0xe71abc2a, 0x21834873, 0x42541b35);
  }

  lemma {:induction false} Start()
    requires |BLOCK| == 64
    ensures Registers(0, 0x67452301, 0xefcdab89, 0x98badcfe, 0x10325476, 0xc3d2e1f0)
  {
  }

  // ---- the digest --------------------------------------------------------------------------------------------

  /** What one block is compressed to, from the registers after the last round. */
  lemma {:induction false} Compressed(h: Digest, block: seq<byte>, r: Digest, s: Digest)
    requires |block| == 64 && Rounds(h, Schedule(block), 80) == r
    requires s.a == (h.a + r.a) % WORD_SIZE && s.b == (h.b + r.b) % WORD_SIZE && s.c == (h.c + r.c) % WORD_SIZE
    requires s.d == (h.d + r.d) % WORD_SIZE && s.e == (h.e + r.e) % WORD_SIZE
    ensures Compress(h, block) == s
  {
    hide Rounds, Schedule;
  }

  lemma {:induction false} DigestOfBlock()
    ensures |BLOCK| == 64
    ensures Compress(INITIAL, BLOCK) == Digest(0xa9993e36, 0x4706816a, 0xba3e2571, 0x7850c26c, 0x9cd0d89d)
  {
    hide Rounds, Schedule, Compress, W;
    Registers80();
    Compressed(INITIAL, BLOCK, Digest(0x42541b35, 0x5738d5e1, 0x21834873, 0x681e6df6, 0xd8fdf6ad),
               Digest(0xa9993e36, 0x4706816a, 0xba3e2571, 0x7850c26c, 0x9cd0d89d));
  }

  lemma {:induction false} OneBlock()
    requires |BLOCK| == 64
    ensures Blocks(BLOCK) == Compress(INITIAL, BLOCK)
  {
    hide Compress;
    var none: seq<byte> := [];
    assert BLOCK[..0] == none && BLOCK[0..64] == BLOCK;
    assert Blocks(none) == INITIAL;
  }

  lemma {:induction false} AbcIsAbc()
    ensures Text.Ascii("abc") == ABC
  {
  }

  /** The hash of "abc". */
  lemma {:induction false} HashOfAbc()
    ensures Hash(Text.Ascii("abc")) == [0xa9, 0x99, 0x3e, 0x36, 0x47, 0x06, 0x81, 0x6a, 0xba, 0x3e,
                                        0x25, 0x71, 0x78, 0x50, 0xc2, 0x6c, 0x9c, 0xd0, 0xd8, 0x9d]
  {
    hide Compress, Blocks, Padded, BLOCK;
    AbcIsAbc();
    PaddedAbc();
    DigestOfBlock();
    OneBlock();
  }
}
