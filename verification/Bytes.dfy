/** Bytes, big-endian integers and the small sequence vocabulary shared by every wire format. */
module Bytes {

  type byte = x: int | 0 <= x < 256

  datatype Option<+T> = None | Some(value: T)

  /** The concatenation of a list of byte strings. */
  function Flat<T>(parts: seq<seq<T>>): (r: seq<T>) {
    if parts == [] then [] else parts[0] + Flat(parts[1..])
  }

  lemma {:induction false} FlatAppend<T>(a: seq<seq<T>>, b: seq<seq<T>>)
    ensures Flat(a + b) == Flat(a) + Flat(b)
  {
    if a == [] {
      assert a + b == b;
    } else {
      assert (a + b)[1..] == a[1..] + b;
      FlatAppend(a[1..], b);
    }
  }

  lemma {:induction false} FlatSnoc<T>(a: seq<seq<T>>, x: seq<T>)
    ensures Flat(a + [x]) == Flat(a) + x
  {
    FlatAppend(a, [x]);
    assert Flat([x]) == x + Flat([x][1..]);
  }

  /** The two bytes of a 16-bit number, most significant first; higher bits are cut off. */
  function Be16(n: nat): (r: seq<byte>)
    ensures |r| == 2
  {
    [(n / 256) % 256, n % 256]
  }

  function FromBe16(hi: byte, lo: byte): (n: nat)
    ensures n < 65536
  {
    hi * 256 + lo
  }

  lemma {:induction false} Be16RoundTrip(n: nat)
    ensures FromBe16(Be16(n)[0], Be16(n)[1]) == n % 65536
  {
    var q, r := n / 65536, n % 65536;
    assert n / 256 == 256 * q + r / 256;
  }

  /** They are the bytes of the number cut off to 16 bits. */
  lemma {:induction false} Be16Bytes(n: nat)
    ensures n % 65536 / 256 < 256 && [n % 65536 / 256, n % 256] == Be16(n)
  {
    var q, r := n / 65536, n % 65536;
    assert n / 256 == 256 * q + r / 256;
  }

  lemma {:induction false} SliceOfPrefix<T>(a: seq<T>, b: seq<T>, i: nat, j: nat)
    requires i <= j <= |a|
    ensures (a + b)[i..j] == a[i..j]
  {
  }

  lemma {:induction false} SliceOfSuffix<T>(s: seq<T>, from: nat, i: nat, j: nat)
    requires i <= j && from + j <= |s|
    ensures s[from..][i..j] == s[from + i..from + j]
  {
  }

  lemma {:induction false} SliceOfMiddle<T>(a: seq<T>, b: seq<T>, c: seq<T>)
    ensures (a + b + c)[|a|..|a| + |b|] == b
  {
  }

  lemma {:induction false} Associate<T>(a: seq<T>, b: seq<T>, c: seq<T>)
    ensures a + (b + c) == a + b + c
  {
  }

  /** `n` as `k` bytes, most significant first. */
  function BigEndian(n: nat, k: nat): (r: seq<byte>)
    ensures |r| == k
    decreases k
  {
    if k == 0 then [] else BigEndian(n / 256, k - 1) + [n % 256]
  }

  /** The number written by `b`, most significant byte first. */
  function FromBigEndian(b: seq<byte>): nat {
    if b == [] then 0 else FromBigEndian(b[..|b| - 1]) * 256 + b[|b| - 1]
  }

  lemma {:induction false} FromBigEndianBound(b: seq<byte>)
    ensures FromBigEndian(b) < Pow256(|b|)
  {
    if b != [] {
      FromBigEndianBound(b[..|b| - 1]);
    }
  }

  function Pow2(n: nat): (p: nat)
    ensures p > 0
  {
    if n == 0 then 1 else 2 * Pow2(n - 1)
  }

  function Zeros(n: nat): (r: seq<byte>)
    ensures |r| == n
  {
    seq(n, _ => 0)
  }

  /** Bit `k` of a number, the lowest being bit 0. */
  function Bit(n: nat, k: nat): (b: nat)
    ensures b < 2
  {
    n / Pow2(k) % 2
  }

  lemma {:induction false} BitHalves(n: nat, k: nat)
    ensures Bit(n, 0) == n % 2
    ensures Bit(n, k + 1) == Bit(n / 2, k)
  {
    assert Pow2(0) == 1;
    DivideTwice(n, Pow2(k));
  }

  lemma {:induction false} DivideTwice(n: nat, p: nat)
    requires p > 0
    ensures n / (2 * p) == n / 2 / p
  {
    var q, r := n / 2 / p, n / 2 % p;
    assert n / 2 == q * p + r;
    var m := 2 * r + n % 2;
    assert 2 * (q * p) == q * (2 * p);
    assert n == q * (2 * p) + m && m < 2 * p;
    Quotient(q, 2 * p, m);
  }

  lemma {:induction false} Quotient(q: nat, d: nat, m: nat)
    requires m < d
    ensures (q * d + m) / d == q
  {
    var n := q * d + m;
    SameQuotient(d, q, m, n / d, n % d);
  }

  lemma {:induction false} SameQuotient(d: nat, a: nat, r: nat, b: nat, s: nat)
    requires r < d && s < d && d * a + r == d * b + s
    ensures a == b
  {
    if a < b {
      MultiplyGrows(d, a + 1, b);
    } else if b < a {
      MultiplyGrows(d, b + 1, a);
    }
  }

  lemma {:induction false} MultiplyGrows(d: nat, a: nat, b: nat)
    requires a <= b
    ensures d * a <= d * b
  {
  }

  function Pow256(k: nat): (r: nat)
    ensures r > 0
  {
    if k == 0 then 1 else 256 * Pow256(k - 1)
  }

  lemma {:induction false} BigEndianRoundTrip(n: nat, k: nat)
    requires n < Pow256(k)
    ensures FromBigEndian(BigEndian(n, k)) == n
    decreases k
  {
    if k > 0 {
      var b := BigEndian(n, k);
      assert b[..|b| - 1] == BigEndian(n / 256, k - 1);
      BigEndianRoundTrip(n / 256, k - 1);
    }
  }

  lemma {:induction false} FromBigEndianRoundTrip(b: seq<byte>)
    ensures BigEndian(FromBigEndian(b), |b|) == b
  {
    if b != [] {
      FromBigEndianRoundTrip(b[..|b| - 1]);
      var n := FromBigEndian(b);
      assert n / 256 == FromBigEndian(b[..|b| - 1]) && n % 256 == b[|b| - 1];
    }
  }

  /** Leading zero bytes change nothing, and a number below 256^k has them. */
  lemma {:induction false} FromBigEndianSplit(a: seq<byte>, b: seq<byte>)
    ensures FromBigEndian(a + b) == FromBigEndian(a) * Pow256(|b|) + FromBigEndian(b)
    decreases |b|
  {
    if b == [] {
      assert a + b == a;
    } else {
      var c := a + b;
      assert c[..|c| - 1] == a + b[..|b| - 1];
      FromBigEndianSplit(a, b[..|b| - 1]);
      calc {
        FromBigEndian(c);
        FromBigEndian(a + b[..|b| - 1]) * 256 + b[|b| - 1];
        (FromBigEndian(a) * Pow256(|b| - 1) + FromBigEndian(b[..|b| - 1])) * 256 + b[|b| - 1];
        FromBigEndian(a) * Pow256(|b| - 1) * 256 + FromBigEndian(b);
        { Assoc(FromBigEndian(a), Pow256(|b| - 1)); }
        FromBigEndian(a) * Pow256(|b|) + FromBigEndian(b);
      }
    }
  }

  lemma {:induction false} Assoc(x: nat, y: nat)
    ensures x * y * 256 == x * (256 * y)
  {
  }

  /** Where `b` first occurs; the length of `s` if nowhere. */
  function IndexOf(s: seq<byte>, b: byte): (d: nat)
    ensures d <= |s|
  {
    if s == [] || s[0] == b then 0 else 1 + IndexOf(s[1..], b)
  }

  /** It is an occurrence and there is none before it. */
  lemma {:induction false} IndexOfMeans(s: seq<byte>, b: byte)
    ensures var d := IndexOf(s, b); b !in s[..d] && (d < |s| ==> s[d] == b)
  {
    if s != [] && s[0] != b {
      IndexOfMeans(s[1..], b);
      var d := IndexOf(s, b);
      assert s[..d] == [s[0]] + s[1..][..d - 1];
    }
  }

  lemma {:induction false} IndexOfAfter(a: seq<byte>, b: byte, rest: seq<byte>)
    requires b !in a && (rest == [] || rest[0] == b)
    ensures IndexOf(a + rest, b) == |a|
  {
    if a == [] {
      assert a + rest == rest;
    } else {
      assert a[0] in a && (a + rest)[1..] == a[1..] + rest;
      IndexOfAfter(a[1..], b, rest);
    }
  }

  /** More bytes do not change where `b` was found. */
  lemma {:induction false} IndexOfStable(a: seq<byte>, more: seq<byte>, b: byte)
    requires IndexOf(a, b) < |a|
    ensures IndexOf(a + more, b) == IndexOf(a, b)
  {
    assert (a + more)[0] == a[0];
    if a[0] != b {
      assert (a + more)[1..] == a[1..] + more;
      IndexOfStable(a[1..], more, b);
    }
  }

  predicate OccursAt(hay: seq<byte>, needle: seq<byte>, i: nat) {
    i + |needle| <= |hay| && hay[i..i + |needle|] == needle
  }

  function FindFrom(hay: seq<byte>, needle: seq<byte>, from: nat): (r: Option<nat>)
    requires from <= |hay|
    ensures r.Some? ==> r.value + |needle| <= |hay|
    decreases |hay| - from
  {
    if OccursAt(hay, needle, from) then Some(from)
    else if from == |hay| then None
    else FindFrom(hay, needle, from + 1)
  }

  /** `std::string::find`: the first place where `needle` occurs. */
  function Find(hay: seq<byte>, needle: seq<byte>): (r: Option<nat>)
    ensures r.Some? ==> r.value + |needle| <= |hay|
  {
    FindFrom(hay, needle, 0)
  }

  lemma {:induction false} FoundFrom(hay: seq<byte>, needle: seq<byte>, from: nat, i: nat)
    requires from <= |hay|
    ensures var r := FindFrom(hay, needle, from);
            && (r.Some? ==> from <= r.value && OccursAt(hay, needle, r.value))
            && (from <= i && OccursAt(hay, needle, i) ==> r.Some? && r.value <= i)
    decreases |hay| - from
  {
    if !OccursAt(hay, needle, from) && from < |hay| {
      FoundFrom(hay, needle, from + 1, i);
    }
  }

  /** What is found is an occurrence, and none comes before it. */
  lemma {:induction false} Found(hay: seq<byte>, needle: seq<byte>, i: nat)
    ensures var r := Find(hay, needle);
            && (r.Some? ==> OccursAt(hay, needle, r.value))
            && (OccursAt(hay, needle, i) ==> r.Some? && r.value <= i)
  {
    FoundFrom(hay, needle, 0, i);
  }

  lemma {:induction false} FindStable(a: seq<byte>, b: seq<byte>, needle: seq<byte>)
    requires Find(a, needle).Some?
    ensures Find(a + b, needle) == Find(a, needle)
  {
    var p := Find(a, needle).value;
    Found(a, needle, p);
    SliceOfPrefix(a, b, p, p + |needle|);
    Found(a + b, needle, p);
    var q := Find(a + b, needle).value;
    SliceOfPrefix(a, b, q, q + |needle|);
    Found(a, needle, q);
  }
}
