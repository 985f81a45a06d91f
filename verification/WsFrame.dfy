/** The WebSocket frame codec of include/server/ws/ws_frame.hpp (sections 5.2 and 5.3 of RFC 6455). */
module WsFrame {
  import opened Bytes

  datatype OpCode = Continuation | Text | Binary | Close | Ping | Pong {
    function Code(): (c: byte)
      ensures c < 16
    {
      match this
      case Continuation => 0
      case Text => 1
      case Binary => 2
      case Close => 8
      case Ping => 9
      case Pong => 10
    }

    predicate IsControl() {
      Code() >= 8
    }
  }

  predicate IsValidOpCode(code: byte) {
    code in {0, 1, 2, 8, 9, 10}
  }

  function OpCodeOf(code: byte): (op: OpCode)
    requires IsValidOpCode(code)
    ensures op.Code() == code
  {
    if code == 0 then Continuation
    else if code == 1 then Text
    else if code == 2 then Binary
    else if code == 8 then Close
    else if code == 9 then Ping
    else Pong
  }

  const WIDTH32: nat := 0x1_0000_0000

  datatype Header = Header(fin: bool, opcode: OpCode, masked: bool, headerLen: nat, payloadLen: nat, maskKey: nat) {
    function Total(): nat { headerLen + payloadLen }

    /** What every header on the wire satisfies: the shortest length form, and a key only if masked. */
    predicate Canonical() {
      && payloadLen < WIDTH32
      && maskKey < WIDTH32
      && (!masked ==> maskKey == 0)
      && headerLen == 2 + ExtBytes(payloadLen) + (if masked then 4 else 0)
    }
  }

  /** The number of extended length bytes the encoder spends on a payload of `len` bytes. */
  function ExtBytes(len: nat): nat {
    if len <= 125 then 0 else if len <= 65535 then 2 else 8
  }

  /** The four octets of a masking key, most significant first. */
  function KeyBytes(key: nat): (r: seq<byte>)
    ensures |r| == 4
  {
    [(key / 256 / 256 / 256) % 256, (key / 256 / 256) % 256, (key / 256) % 256, key % 256]
  }

  function KeyOf(b: seq<byte>): (key: nat)
    requires |b| == 4
    ensures key < WIDTH32
  {
    ((b[0] as nat * 256 + b[1]) * 256 + b[2]) * 256 + b[3]
  }

  lemma {:induction false} KeyRoundTrip(key: nat)
    requires key < WIDTH32
    ensures KeyOf(KeyBytes(key)) == key
  {
  }

  lemma {:induction false} KeyBytesRoundTrip(b: seq<byte>)
    requires |b| == 4
    ensures KeyBytes(KeyOf(b)) == b
  {
    var key := KeyOf(b);
    assert key / 256 == (b[0] as nat * 256 + b[1]) * 256 + b[2];
    assert key / 256 / 256 == b[0] as nat * 256 + b[1];
  }

  /** The outcome of looking for a header at the front of a buffer. */
  datatype Parsed = Incomplete | Malformed | Complete(hdr: Header)

  function LengthForm(len7: byte): (ext: nat) {
    if len7 == 126 then 2 else if len7 == 127 then 8 else 0
  }

  const UINT64_MAX: nat := 0xFFFF_FFFF_FFFF_FFFF

  /** The length a complete header announces, or `UINT64_MAX` if it is not in the shortest form. */
  function AnnouncedLength(data: seq<byte>): nat
    requires |data| >= 2 && |data| >= 2 + LengthForm(data[1] % 128)
  {
    var ext := LengthForm(data[1] % 128);
    var len := if ext == 0 then data[1] % 128 else FromBigEndian(data[2..2 + ext]);
    if ext == 2 && len < 126 then UINT64_MAX
    else if ext == 8 && (FromBigEndian(data[2..6]) != 0 || len < 65536) then UINT64_MAX
    else len
  }

  function Parse(data: seq<byte>): Parsed {
    if |data| < 2 then Incomplete
    else if (data[0] / 16) % 8 != 0 || !IsValidOpCode(data[0] % 16) then Malformed
    else
      var masked := data[1] >= 128;
      var len7 := data[1] % 128;
      var ext := LengthForm(len7);
      var headerLen := 2 + ext + (if masked then 4 else 0);
      if |data| < headerLen then Incomplete
      else
        var len := AnnouncedLength(data);
        if len == UINT64_MAX then Malformed
        else
          var key := if masked then KeyOf(data[2 + ext..headerLen]) else 0;
          Complete(Header(data[0] >= 128, OpCodeOf(data[0] % 16), masked, headerLen, len, key))
  }

  /** The header bytes of section 5.2 of RFC 6455. */
  function HeaderBytes(fin: bool, opcode: OpCode, masked: bool, len: nat, key: nat): (r: seq<byte>)
    ensures |r| == 2 + ExtBytes(len) + (if masked then 4 else 0)
  {
    [FirstByte(fin, opcode), LengthByte(masked, len)]
    + BigEndian(len, ExtBytes(len))
    + (if masked then KeyBytes(key) else [])
  }

  /** The final-fragment bit, three reserved zero bits and the opcode. */
  function FirstByte(fin: bool, opcode: OpCode): (b: byte)
    ensures b >= 128 <==> fin
    ensures (b / 16) % 8 == 0
    ensures b % 16 == opcode.Code() && IsValidOpCode(b % 16) && OpCodeOf(b % 16) == opcode
  {
    opcode.Code() + (if fin then 128 else 0)
  }

  /** The mask bit and the 7-bit length. */
  function LengthByte(masked: bool, len: nat): (b: byte)
    ensures b >= 128 <==> masked
    ensures LengthForm(b % 128) == ExtBytes(len)
    ensures ExtBytes(len) == 0 ==> b % 128 == len
  {
    (if masked then 128 else 0) + (if len <= 125 then len else if len <= 65535 then 126 else 127)
  }

  /** An 8-byte length whose first four bytes are zero is a 4-byte length, and conversely. */
  lemma {:induction false} HighHalfZero(b: seq<byte>)
    requires |b| == 8
    ensures FromBigEndian(b[..4]) == 0 <==> FromBigEndian(b) < WIDTH32
  {
    FromBigEndianSplit(b[..4], b[4..]);
    assert b[..4] + b[4..] == b;
    FromBigEndianBound(b[4..]);
    assert Pow256(4) == WIDTH32;
    var hi := FromBigEndian(b[..4]);
    if hi != 0 {
      assert hi * WIDTH32 >= WIDTH32;
    }
  }

  /** Where the parts of an encoded header lie. */
  lemma {:induction false} HeaderBytesLayout(fin: bool, opcode: OpCode, masked: bool, len: nat, key: nat, rest: seq<byte>)
    ensures var d := HeaderBytes(fin, opcode, masked, len, key) + rest;
            var ext := ExtBytes(len);
            && d[0] == FirstByte(fin, opcode)
            && d[1] == LengthByte(masked, len)
            && d[2..2 + ext] == BigEndian(len, ext)
            && (masked ==> d[2 + ext..6 + ext] == KeyBytes(key))
  {
    ThreeParts(FirstByte(fin, opcode), LengthByte(masked, len), BigEndian(len, ExtBytes(len)),
               if masked then KeyBytes(key) else [], rest);
  }

  lemma {:induction false} ThreeParts(x: byte, y: byte, b: seq<byte>, c: seq<byte>, rest: seq<byte>)
    ensures var d := [x, y] + b + c + rest;
            && d[0] == x && d[1] == y
            && d[2..2 + |b|] == b && d[2 + |b|..2 + |b| + |c|] == c
  {
  }

  lemma {:induction false} LengthReadBack(len: nat, field: seq<byte>)
    requires len < WIDTH32 && ExtBytes(len) > 0 && field == BigEndian(len, ExtBytes(len))
    ensures FromBigEndian(field) == len
    ensures ExtBytes(len) == 8 ==> FromBigEndian(field[..4]) == 0
  {
    assert Pow256(2) == 65536 && Pow256(4) == WIDTH32 && Pow256(8) == WIDTH32 * WIDTH32;
    BigEndianRoundTrip(len, ExtBytes(len));
    if ExtBytes(len) == 8 {
      HighHalfZero(field);
    }
  }

  lemma {:induction false} AnnouncedIsEncoded(d: seq<byte>, len: nat)
    requires len < WIDTH32 && |d| >= 2 + ExtBytes(len)
    requires LengthForm(d[1] % 128) == ExtBytes(len) && (ExtBytes(len) == 0 ==> d[1] % 128 == len)
    requires d[2..2 + ExtBytes(len)] == BigEndian(len, ExtBytes(len))
    ensures AnnouncedLength(d) == len
  {
    var ext := ExtBytes(len);
    if ext > 0 {
      LengthReadBack(len, d[2..2 + ext]);
    }
    if ext == 8 {
      assert d[2..6] == d[2..10][..4];
    }
  }

  /** Whatever follows the header, the parser reads back what the encoder wrote and stops there. */
  lemma {:induction false} ParseOfHeaderBytes(fin: bool, opcode: OpCode, masked: bool, len: nat, key: nat, rest: seq<byte>)
    requires len < WIDTH32 && key < WIDTH32 && (!masked ==> key == 0)
    ensures Parse(HeaderBytes(fin, opcode, masked, len, key) + rest)
         == Complete(Header(fin, opcode, masked, 2 + ExtBytes(len) + (if masked then 4 else 0), len, key))
  {
    var d := HeaderBytes(fin, opcode, masked, len, key) + rest;
    var ext := ExtBytes(len);
    HeaderBytesLayout(fin, opcode, masked, len, key, rest);
    assert LengthForm(d[1] % 128) == ext;
    AnnouncedIsEncoded(d, len);
    if masked {
      KeyRoundTrip(key);
    }
  }

  lemma {:induction false} LengthWrittenBack(len7: byte, field: seq<byte>)
    requires 126 <= len7 < 128 && |field| == LengthForm(len7)
    requires len7 == 126 ==> FromBigEndian(field) >= 126
    requires len7 == 127 ==> FromBigEndian(field[..4]) == 0 && FromBigEndian(field) >= 65536
    ensures FromBigEndian(field) < WIDTH32
    ensures ExtBytes(FromBigEndian(field)) == |field|
    ensures BigEndian(FromBigEndian(field), |field|) == field
  {
    FromBigEndianBound(field);
    FromBigEndianRoundTrip(field);
    assert Pow256(2) == 65536;
    if len7 == 127 {
      HighHalfZero(field);
    }
  }

  lemma {:induction false} FirstByteBack(b: byte)
    requires (b / 16) % 8 == 0 && IsValidOpCode(b % 16)
    ensures b == FirstByte(b >= 128, OpCodeOf(b % 16))
  {
  }

  /** The length field of an accepted header, as the parser reads it. */
  lemma {:induction false} AcceptedLength(d: seq<byte>)
    requires Parse(d).Complete?
    ensures var len := Parse(d).hdr.payloadLen;
            && len < WIDTH32
            && ExtBytes(len) == LengthForm(d[1] % 128)
            && d[1] % 128 == (if ExtBytes(len) == 0 then len else if ExtBytes(len) == 2 then 126 else 127)
            && (ExtBytes(len) > 0 ==> d[2..2 + ExtBytes(len)] == BigEndian(len, ExtBytes(len)))
  {
    var ext := LengthForm(d[1] % 128);
    if ext > 0 {
      assert ext == 8 ==> d[2..10][..4] == d[2..6];
      LengthWrittenBack(d[1] % 128, d[2..2 + ext]);
    }
  }

  lemma {:induction false} AcceptedKey(d: seq<byte>)
    requires Parse(d).Complete?
    ensures var h := Parse(d).hdr;
            var off := 2 + LengthForm(d[1] % 128);
            && h.maskKey < WIDTH32
            && (h.masked ==> d[off..off + 4] == KeyBytes(h.maskKey))
  {
    var off := 2 + LengthForm(d[1] % 128);
    if Parse(d).hdr.masked {
      KeyBytesRoundTrip(d[off..off + 4]);
    }
  }

  /** The parts of an accepted header, as the parser reads them. */
  lemma {:induction false} AcceptedHeaderFields(d: seq<byte>)
    requires Parse(d).Complete?
    ensures var h := Parse(d).hdr;
            var ext := ExtBytes(h.payloadLen);
            && h.Canonical()
            && h.headerLen <= |d|
            && d[0] == FirstByte(h.fin, h.opcode)
            && d[1] == LengthByte(h.masked, h.payloadLen)
            && d[2..2 + ext] == BigEndian(h.payloadLen, ext)
            && (h.masked ==> d[2 + ext..6 + ext] == KeyBytes(h.maskKey))
  {
    AcceptedLength(d);
    AcceptedKey(d);
    FirstByteBack(d[0]);
  }

  /** The converse: an accepted header is, byte for byte, what the encoder emits for its fields. */
  lemma {:induction false} AcceptedHeaderIsEncoded(d: seq<byte>)
    requires Parse(d).Complete?
    ensures var h := Parse(d).hdr;
            && h.Canonical()
            && h.headerLen <= |d|
            && HeaderBytes(h.fin, h.opcode, h.masked, h.payloadLen, h.maskKey) == d[..h.headerLen]
  {
    AcceptedHeaderFields(d);
    var h := Parse(d).hdr;
    var ext := ExtBytes(h.payloadLen);
    var e := HeaderBytes(h.fin, h.opcode, h.masked, h.payloadLen, h.maskKey);
    HeaderBytesLayout(h.fin, h.opcode, h.masked, h.payloadLen, h.maskKey, []);
    SameBytes(e + [], d[..h.headerLen], ext, h.masked);
    assert e + [] == e;
  }

  lemma {:induction false} SameBytes(e: seq<byte>, d: seq<byte>, ext: nat, masked: bool)
    requires |e| == |d| == 2 + ext + (if masked then 4 else 0)
    requires e[0] == d[0] && e[1] == d[1]
    requires e[2..2 + ext] == d[2..2 + ext]
    requires masked ==> e[2 + ext..6 + ext] == d[2 + ext..6 + ext]
    ensures e == d
  {
    assert e == [e[0], e[1]] + e[2..2 + ext] + e[2 + ext..];
    assert d == [d[0], d[1]] + d[2..2 + ext] + d[2 + ext..];
    assert !masked ==> e[2 + ext..] == [] == d[2 + ext..];
    assert masked ==> e[2 + ext..] == e[2 + ext..6 + ext];
  }

  /** A decided header stays decided when more bytes arrive. */
  lemma {:induction false} ParseStable(a: seq<byte>, b: seq<byte>)
    requires !Parse(a).Incomplete?
    ensures Parse(a + b) == Parse(a)
  {
    var d := a + b;
    assert d[0] == a[0] && d[1] == a[1];
    var ext := LengthForm(a[1] % 128);
    var headerLen := 2 + ext + (if a[1] >= 128 then 4 else 0);
    if |a| >= headerLen {
      SliceOfPrefix(a, b, 2, 2 + ext);
      SliceOfPrefix(a, b, 2 + ext, headerLen);
      if ext == 8 {
        SliceOfPrefix(a, b, 2, 6);
      }
    }
  }

  /** A header cut anywhere asks for more bytes; it is never mistaken for an error. */
  lemma {:induction false} ProperPrefixIsIncomplete(d: seq<byte>, k: nat)
    requires Parse(d).Complete? && k < Parse(d).hdr.headerLen
    ensures k <= |d| && Parse(d[..k]) == Incomplete
  {
    AcceptedHeaderIsEncoded(d);
    if k >= 2 {
      assert d[..k][0] == d[0] && d[..k][1] == d[1];
    }
  }

  method ParseLength(data: seq<byte>) returns (len: nat)
    requires |data| >= 2 && |data| >= 2 + LengthForm(data[1] % 128)
    ensures len == AnnouncedLength(data)
  {
    var len7 := data[1] % 128;
    if len7 <= 125 {
      return len7;
    }
    if len7 == 126 {
      len := data[2] as nat * 256 + data[3];
      assert data[2..4][..1] == [data[2]] && [data[2]][..0] == [];
      assert FromBigEndian([data[2]]) == data[2];
      return if len < 126 then UINT64_MAX else len;
    }
    for i := 0 to 4
      invariant FromBigEndian(data[2..2 + i]) == 0
    {
      assert data[2..3 + i][..i] == data[2..2 + i];
      if data[2 + i] != 0 {
        ghost var a, b := data[2..3 + i], data[3 + i..6];
        assert a + b == data[2..6];
        FromBigEndianSplit(a, b);
        assert FromBigEndian(a) * Pow256(|b|) > 0;
        return UINT64_MAX;
      }
    }
    len := 0;
    for i := 4 to 8
      invariant len == FromBigEndian(data[2..2 + i])
    {
      len := len * 256 + data[2 + i];
      assert data[2..3 + i][..i] == data[2..2 + i];
    }
    return if len < 65536 then UINT64_MAX else len;
  }

  /** Parse a frame header. An error is marked by `UINT64_MAX` in the length field; 0 otherwise
    * means that more bytes are needed. */
  method ParseHeader(data: seq<byte>) returns (n: nat, hdr: Header)
    ensures match Parse(data)
            case Incomplete => n == 0 && hdr.payloadLen == 0
            case Malformed => n == 0 && hdr.payloadLen == UINT64_MAX
            case Complete(h) => n == h.headerLen && hdr == h
  {
    hdr := Header(false, Text, false, 0, 0, 0);
    if |data| < 2 {
      return 0, hdr;
    }
    var b0, b1 := data[0], data[1];
    hdr := hdr.(fin := b0 >= 128);
    if (b0 / 16) % 8 != 0 || !IsValidOpCode(b0 % 16) {
      return 0, hdr.(payloadLen := UINT64_MAX);
    }
    hdr := hdr.(opcode := OpCodeOf(b0 % 16), masked := b1 >= 128);
    var ext := 0;
    if b1 % 128 == 126 {
      ext := 2;
    } else if b1 % 128 == 127 {
      ext := 8;
    }
    var headerLen := 2 + ext + (if hdr.masked then 4 else 0);
    if |data| < headerLen {
      return 0, hdr;
    }
    var len := ParseLength(data);
    hdr := hdr.(headerLen := headerLen, payloadLen := len);
    if len == UINT64_MAX {
      return 0, hdr;
    }
    if hdr.masked {
      var off := 2 + ext;
      hdr := hdr.(maskKey := data[off] as nat * 0x100_0000 + data[off + 1] as nat * 0x1_0000
                             + data[off + 2] as nat * 0x100 + data[off + 3] as nat);
      assert data[off..headerLen] == [data[off], data[off + 1], data[off + 2], data[off + 3]];
    }
    return headerLen, hdr;
  }

  // ---- masking -------------------------------------------------------------------------------

  /** Bitwise exclusive or of the low `n` bits. */
  function XorBits(x: nat, y: nat, n: nat): (r: nat)
    ensures r < Pow2(n)
  {
    if n == 0 then 0
    else 2 * XorBits(x / 2, y / 2, n - 1) + (if x % 2 == y % 2 then 0 else 1)
  }

  function Xor(x: byte, y: byte): (r: byte) {
    assert Pow2(8) == 256;
    XorBits(x, y, 8)
  }

  lemma {:induction false} XorBitsInvolution(x: nat, y: nat, n: nat)
    requires x < Pow2(n)
    ensures XorBits(XorBits(x, y, n), y, n) == x
  {
    if n > 0 {
      XorBitsInvolution(x / 2, y / 2, n - 1);
      var r := XorBits(x, y, n);
      assert r / 2 == XorBits(x / 2, y / 2, n - 1);
    }
  }

  lemma {:induction false} XorBitsMeans(x: nat, y: nat, n: nat, k: nat)
    requires k < n
    ensures Bit(XorBits(x, y, n), k) == (Bit(x, k) + Bit(y, k)) % 2
  {
    var r := XorBits(x, y, n);
    assert r / 2 == XorBits(x / 2, y / 2, n - 1) && r % 2 == (x % 2 + y % 2) % 2;
    var j := if k == 0 then 0 else k - 1;
    BitHalves(r, j);
    BitHalves(x, j);
    BitHalves(y, j);
    hide Bit;
    if k > 0 {
      XorBitsMeans(x / 2, y / 2, n - 1, k - 1);
    }
  }

  /** Each bit is the sum of the two bits, modulo 2. */
  lemma {:induction false} XorMeans(x: byte, y: byte, k: nat)
    requires k < 8
    ensures Bit(Xor(x, y), k) == (Bit(x, k) + Bit(y, k)) % 2
  {
    XorBitsMeans(x, y, 8, k);
  }

  /** Octet `i` of the masking key, counted from its most significant end. */
  function KeyOctet(key: nat, i: nat): (r: byte)
    requires i < 4
  {
    KeyBytes(key)[i]
  }

  /** Section 5.3 of RFC 6455: octet i of the result is octet i of the data xor octet i mod 4 of the key. */
  function Masked(data: seq<byte>, key: nat): (r: seq<byte>)
    ensures |r| == |data|
  {
    seq(|data|, i requires 0 <= i < |data| => Xor(data[i], KeyOctet(key, i % 4)))
  }

  lemma {:induction false} MaskInvolution(data: seq<byte>, key: nat)
    ensures Masked(Masked(data, key), key) == data
  {
    var m := Masked(data, key);
    forall i | 0 <= i < |data|
      ensures Masked(m, key)[i] == data[i]
    {
      assert Pow2(8) == 256;
      XorBitsInvolution(data[i], KeyOctet(key, i % 4), 8);
    }
  }

  /** Mask or unmask a payload in place. */
  method ApplyMask(payload: array<byte>, key: nat)
    modifies payload
    ensures payload[..] == Masked(old(payload[..]), key)
  {
    var mask := [(key / 256 / 256 / 256) % 256, (key / 256 / 256) % 256, (key / 256) % 256, key % 256];
    ghost var was := payload[..];
    for i := 0 to payload.Length
      invariant forall k :: 0 <= k < i ==> payload[k] == Masked(was, key)[k]
      invariant forall k :: i <= k < payload.Length ==> payload[k] == was[k]
    {
      payload[i] := Xor(payload[i], mask[i % 4]);
    }
  }

  // ---- encoding ------------------------------------------------------------------------------

  /** An unmasked server-to-client frame. */
  function ServerFrame(fin: bool, opcode: OpCode, payload: seq<byte>): (r: seq<byte>)
    ensures |r| >= 2
  {
    HeaderBytes(fin, opcode, false, |payload|, 0) + payload
  }

  method EncodeServerFrame(fin: bool, opcode: OpCode, payload: seq<byte>) returns (frame: seq<byte>)
    ensures frame == ServerFrame(fin, opcode, payload)
  {
    hide HeaderBytes, BigEndian;
    var len := |payload|;
    HeaderForms(fin, opcode, len);
    var b0 := opcode.Code();
    if fin {
      b0 := b0 + 128;
    }
    frame := [b0];
    if len <= 125 {
      frame := frame + [len];
    } else if len <= 65535 {
      frame := frame + [126];
      var ext := EncodeLength(len, ExtBytes(len));
      frame := frame + ext;
    } else {
      frame := frame + [127];
      var ext := EncodeLength(len, ExtBytes(len));
      frame := frame + ext;
    }
    if len > 0 {
      frame := frame + payload;
    }
  }

  /** The header of an unmasked frame, for the three sizes of the length. */
  lemma {:induction false} HeaderForms(fin: bool, opcode: OpCode, len: nat)
    ensures var first: byte := opcode.Code() + (if fin then 128 else 0);
            HeaderBytes(fin, opcode, false, len, 0) ==
            if len <= 125 then [first] + [len]
            else [first] + [if len <= 65535 then 126 else 127] + BigEndian(len, ExtBytes(len))
  {
    hide BigEndian;
    assert len <= 125 ==> |BigEndian(len, ExtBytes(len))| == 0;
  }

  method EncodeLength(len: nat, k: nat) returns (ext: seq<byte>)
    ensures ext == BigEndian(len, k)
  {
    ext := [];
    var i := k as int - 1;
    while i >= 0
      invariant -1 <= i < k
      invariant ext == BigEndian(ShiftRight8(len, i + 1), k - 1 - i)
    {
      ext := ext + [ShiftRight8(len, i) % 256];
      i := i - 1;
    }
  }

  /** `n >> (8 * k)` */
  function ShiftRight8(n: nat, k: nat): nat {
    if k == 0 then n else ShiftRight8(n, k - 1) / 256
  }

  /** The two-sided round trip for server frames: fields come back and exactly the payload is left. */
  lemma {:induction false} ServerFrameRoundTrip(fin: bool, opcode: OpCode, payload: seq<byte>)
    requires |payload| < WIDTH32
    ensures var d := ServerFrame(fin, opcode, payload);
            && Parse(d).Complete?
            && var h := Parse(d).hdr;
               && h.fin == fin && h.opcode == opcode && !h.masked
               && h.payloadLen == |payload| && h.Total() == |d|
               && d[h.headerLen..] == payload
  {
    ParseOfHeaderBytes(fin, opcode, false, |payload|, 0, payload);
  }

  /** The frame a client sends: section 5.3 of RFC 6455 requires it to be masked. */
  function ClientFrame(fin: bool, opcode: OpCode, key: nat, payload: seq<byte>): (r: seq<byte>)
    ensures |r| == 6 + ExtBytes(|payload|) + |payload|
  {
    HeaderBytes(fin, opcode, true, |payload|, key) + Masked(payload, key)
  }
}
