/**
  * What is written, byte by byte: the small encodings against the tables and examples of their standards.
  */
module WireSamples {
  import opened Bytes

  import Base64
  import BitWriter
  import H264Source
  import Interleaved
  import MqttCodec
  import NalWriter
  import Serial
  import Text

  // ---- Base64 (RFC 4648) ---------------------------------------------------------------------------------

  /** Table 1: the letters, the small letters, the digits, '+' and '/'. */
  lemma {:induction false} Alphabet(v: nat)
    requires v < 64
    ensures Base64.Digit(v) == if v < 26 then Text.Ascii("ABCDEFGHIJKLMNOPQRSTUVWXYZ")[v]
                               else if v < 52 then Text.Ascii("abcdefghijklmnopqrstuvwxyz")[v - 26]
                               else Text.Ascii("0123456789+/")[v - 52]
  {
    DigitBytes();
    Text.InAlphabet("ABCDEFGHIJKLMNOPQRSTUVWXYZ", 65);
    Text.InAlphabet("abcdefghijklmnopqrstuvwxyz", 97);
    hide Text.Ascii;
  }

  lemma {:induction false} DigitBytes()
    ensures Text.Ascii("0123456789+/") == [48, 49, 50, 51, 52, 53, 54, 55, 56, 57, 43, 47]
  {
  }

  /** The examples of section 10. */
  lemma {:induction false} Foobar()
    ensures Base64.Encoded(Text.Ascii("foobar")) == Text.Ascii("Zm9vYmFy")
    ensures Base64.Encoded(Text.Ascii("fooba")) == Text.Ascii("Zm9vYmE=")
    ensures Base64.Encoded(Text.Ascii("foob")) == Text.Ascii("Zm9vYg==")
  {
    FoobarBytes();
    hide Text.Ascii, Base64.Encoded;
    var foo: seq<byte>, bar: seq<byte>, zm: seq<byte> := [102, 111, 111], [98, 97, 114], [90, 109, 57, 118];
    FooAnd(bar);
    FooAnd(bar[..2]);
    FooAnd(bar[..1]);
    LastDigits();
    assert bar[..2] == [98, 97] && bar[..1] == [98];
    assert foo + bar == [102, 111, 111, 98, 97, 114] && foo + bar[..2] == [102, 111, 111, 98, 97] && foo + bar[..1] == [102, 111, 111, 98];
    assert zm + [89, 109, 70, 121] == [90, 109, 57, 118, 89, 109, 70, 121];
    assert zm + [89, 109, 69, 61] == [90, 109, 57, 118, 89, 109, 69, 61];
    assert zm + [89, 103, 61, 61] == [90, 109, 57, 118, 89, 103, 61, 61];
  }

  lemma {:induction false} FooAnd(rest: seq<byte>)
    ensures Base64.Encoded([102, 111, 111] + rest) == [90, 109, 57, 118] + Base64.Encoded(rest)
  {
    var foo := [102, 111, 111] + rest;
    assert foo[3..] == rest;
    assert Base64.Quad(Base64.Join(102, 111, 111)) == [90, 109, 57, 118];
  }

  lemma {:induction false} LastDigits()
    ensures Base64.Encoded([98, 97, 114]) == [89, 109, 70, 121]
    ensures Base64.Encoded([98, 97]) == [89, 109, 69, 61]
    ensures Base64.Encoded([98]) == [89, 103, 61, 61]
  {
    assert [98, 97, 114][3..] == [];
    assert Base64.Encoded([]) == [];
    assert Base64.Encoded([98, 97, 114]) == [89, 109, 70, 121] + [];
  }

  lemma {:induction false} FoobarBytes()
    ensures Text.Ascii("foobar") == [102, 111, 111, 98, 97, 114] && Text.Ascii("Zm9vYmFy") == [90, 109, 57, 118, 89, 109, 70, 121]
    ensures Text.Ascii("fooba") == [102, 111, 111, 98, 97] && Text.Ascii("Zm9vYmE=") == [90, 109, 57, 118, 89, 109, 69, 61]
    ensures Text.Ascii("foob") == [102, 111, 111, 98] && Text.Ascii("Zm9vYg==") == [90, 109, 57, 118, 89, 103, 61, 61]
  {
  }

  // ---- Exp-Golomb codes (section 9.1 of ITU-T H.264) -------------------------------------------------------

  /** Table 9-2. */
  lemma {:induction false} FirstCodes()
    ensures BitWriter.UeCode(0) == [1]
    ensures BitWriter.UeCode(1) == [0, 1, 0] && BitWriter.UeCode(2) == [0, 1, 1]
    ensures BitWriter.UeCode(3) == [0, 0, 1, 0, 0] && BitWriter.UeCode(6) == [0, 0, 1, 1, 1]
  {
    assert BitWriter.Log2(1) == 0 && BitWriter.Log2(2) == 1 && BitWriter.Log2(3) == 1 && BitWriter.Log2(4) == 2 && BitWriter.Log2(7) == 2;
    assert BitWriter.BitString(1, 1) == [1] && BitWriter.BitString(2, 2) == [1, 0] && BitWriter.BitString(3, 2) == [1, 1];
    assert BitWriter.BitString(4, 3) == [1, 0, 0] && BitWriter.BitString(7, 3) == [1, 1, 1];
  }

  /** Table 9-3: 1, -1, 2, -2 have the code numbers 1, 2, 3, 4. */
  lemma {:induction false} FirstSignedCodes()
    ensures BitWriter.SeCodeNum(0) == 0 && BitWriter.SeCodeNum(1) == 1 && BitWriter.SeCodeNum(-1) == 2
    ensures BitWriter.SeCodeNum(2) == 3 && BitWriter.SeCodeNum(-2) == 4
  {
  }

  /** The first bit written is the most significant of its byte. */
  lemma {:induction false} BitsInByte()
    ensures BitWriter.ByteBits([0x67, 0x01]) == [0, 1, 1, 0, 0, 1, 1, 1, 0, 0, 0, 0, 0, 0, 0, 1]
  {
    assert BitWriter.BitString(0x67, 8) == [0, 1, 1, 0, 0, 1, 1, 1];
    assert BitWriter.BitString(0x01, 8) == [0, 0, 0, 0, 0, 0, 0, 1];
    hide BitWriter.BitString;
    assert [0x67, 0x01][..1] == [0x67] && [0x67][..0] == [];
    assert BitWriter.ByteBits([]) == [];
    assert BitWriter.ByteBits([0x67]) == [] + BitWriter.BitString(0x67, 8);
  }

  // ---- NAL units -------------------------------------------------------------------------------------------

  /** A unit behind its start code, with 03 between two zeros and each of 00 to 03; and not before 04. */
  lemma {:induction false} UnitIsWritten(b: byte)
    requires b > 0
    ensures NalWriter.Written(0x67, [0, 0, b]) == [0, 0, 0, 1, 0x67, 0, 0] + (if b <= 3 then [3, b] else [b])
  {
    assert [0x67] + [0, 0, b] == [0x67, 0, 0, b];
    assert [0x67, 0, 0, b][1..] == [0, 0, b] && [0, 0, b][1..] == [0, b] && [0, b][1..] == [b] && [b][1..] == [];
    assert NalWriter.Escape(0, []) == [];
    assert NalWriter.Escape(2, [b]) == if b <= 3 then [3, b] + [] else [b] + [];
    assert NalWriter.Escape(1, [0, b]) == [0] + NalWriter.Escape(2, [b]);
    assert NalWriter.Escape(0, [0, 0, b]) == [0] + NalWriter.Escape(1, [0, b]);
  }

  // ---- RTP payloads (section 5 of RFC 6184) ----------------------------------------------------------------

  /** A unit goes into one packet exactly if it has at most 1420 bytes. */
  lemma {:induction false} OnePacketIff(nal: seq<byte>)
    ensures |H264Source.Payloads(nal)| == 1 <==> |nal| <= 1420
    ensures |nal| <= 1420 ==> H264Source.Payloads(nal) == [nal]
  {
  }

  /** Otherwise every packet but the last is full: 1420 bytes, of which 1418 are the unit's. */
  lemma {:induction false} PacketsAreFull(nal: seq<byte>, i: nat)
    requires |nal| > 1420 && i < |H264Source.Payloads(nal)|
    ensures var ps := H264Source.Payloads(nal);
            && |ps| == (|nal| - 1 + 1417) / 1418
            && (i < |ps| - 1 ==> |ps[i]| == 1420)
            && (i == |ps| - 1 ==> |ps[i]| == |nal| - 1 - 1418 * (|ps| - 1) + 2)
  {
    FragmentsAreFull(nal[0], nal[1..], true, i);
  }

  lemma {:induction false} FragmentsAreFull(header: byte, body: seq<byte>, start: bool, i: nat)
    requires body != [] && i < |H264Source.Fragments(header, body, start)|
    ensures var fs := H264Source.Fragments(header, body, start);
            && |fs| == (|body| + 1417) / 1418
            && (i < |fs| - 1 ==> |fs[i]| == 1420)
            && (i == |fs| - 1 ==> |fs[i]| == |body| - 1418 * (|fs| - 1) + 2)
    decreases |body|
  {
    if |body| > 1418 {
      FragmentsAreFull(header, body[1418..], false, if i > 0 then i - 1 else 0);
    }
  }

  /** The packet has 16 bytes of room for headers in front, and 1600 bytes hold them all. */
  lemma {:induction false} Room(p: H264Source.RtpPacket)
    ensures p.Size() == 16 + |p.payload|
  {
  }

  // ---- interleaved frames (section 10.12 of RFC 2326) ------------------------------------------------------

  /** A dollar sign, the channel, the length, the packet. */
  lemma {:induction false} FrameIsWritten(channel: byte, payload: seq<byte>)
    ensures Interleaved.FrameBytes(channel, payload) == [36, channel, |payload| / 256 % 256, |payload| % 256] + payload
  {
  }

  /** Who gets the frames of which channel; with one channel for both it is the receiver of control packets. */
  lemma {:induction false} ChannelsAreHandled(cs: Interleaved.Channels, channel: byte)
    ensures cs.HandlerOf(channel) == Interleaved.Nobody <==> channel != cs.rtp && channel != cs.rtcp
    ensures cs.HandlerOf(channel) == Interleaved.Rtp ==> channel == cs.rtp != cs.rtcp
    ensures cs.HandlerOf(channel) == Interleaved.Rtcp ==> channel == cs.rtcp
  {
  }

  /** What can start a request is the first letter of a method of the protocol (section 10). */
  lemma {:induction false} RequestLetters(buf: seq<byte>)
    requires buf != []
    ensures Interleaved.LooksLikeRequest(buf) <==> exists m :: m in ["OPTIONS", "DESCRIBE", "SETUP", "PLAY", "PAUSE", "TEARDOWN"] && buf[0] == m[0] as int
  {
    var methods := ["OPTIONS", "DESCRIBE", "SETUP", "PLAY", "PAUSE", "TEARDOWN"];
    assert methods[0] in methods && methods[1] in methods && methods[2] in methods && methods[3] in methods && methods[5] in methods;
  }

  // ---- serial length fields --------------------------------------------------------------------------------

  lemma {:induction false} LengthsAreRead(cfg: Serial.Config, a: byte, b: byte, c: byte, d: byte)
    ensures Serial.LengthOf(cfg, [a]) == a
    ensures Serial.LengthOf(cfg, [a, b]) == if cfg.bigEndian then a as int * 256 + b else a + 256 * b as int
    ensures Serial.LengthOf(cfg, [a, b, c, d]) ==
            if cfg.bigEndian then a as int * 0x100_0000 + b as int * 0x1_0000 + c as int * 0x100 + d
            else a + 0x100 * b as int + 0x1_0000 * c as int + 0x100_0000 * d as int
  {
    BigRead(a, b, c, d);
    LittleRead(a, b, c, d);
    hide FromBigEndian, Serial.FromLittleEndian;
  }

  lemma {:induction false} BigRead(a: byte, b: byte, c: byte, d: byte)
    ensures FromBigEndian([a]) == a && FromBigEndian([a, b]) == a as int * 256 + b
    ensures FromBigEndian([a, b, c, d]) == a as int * 0x100_0000 + b as int * 0x1_0000 + c as int * 0x100 + d
  {
    assert [a][..0] == [] && [a, b][..1] == [a] && [a, b, c][..2] == [a, b] && [a, b, c, d][..3] == [a, b, c];
    assert FromBigEndian([a]) == a as int;
    assert FromBigEndian([a, b, c]) == (a as int * 256 + b) * 256 + c;
  }

  lemma {:induction false} LittleRead(a: byte, b: byte, c: byte, d: byte)
    ensures Serial.FromLittleEndian([a]) == a && Serial.FromLittleEndian([a, b]) == a + 256 * b as int
    ensures Serial.FromLittleEndian([a, b, c, d]) == a + 0x100 * b as int + 0x1_0000 * c as int + 0x100_0000 * d as int
  {
    assert [d][1..] == [] && [c, d][1..] == [d] && [b, c, d][1..] == [c, d] && [a, b, c, d][1..] == [b, c, d];
    assert [b][1..] == [] && [a, b][1..] == [b] && [a][1..] == [];
    assert Serial.FromLittleEndian([d]) == d as int;
    assert Serial.FromLittleEndian([c, d]) == c + 256 * d as int;
    assert Serial.FromLittleEndian([b, c, d]) == b + 256 * (c + 256 * d as int);
  }

  // ---- MQTT packets ----------------------------------------------------------------------------------------

  /** Section 2.2.3: 321 is 65 and twice 128. */
  lemma {:induction false} LengthIsWritten()
    ensures MqttCodec.LengthBytes(321) == [193, 2] && MqttCodec.LengthBytes(127) == [127] && MqttCodec.LengthBytes(128) == [128, 1]
  {
    assert MqttCodec.LengthBytes(2) == [2] && MqttCodec.LengthBytes(1) == [1];
  }

  /** Section 3.3: a publication to "a/b" at QoS 1, with identifier 10. */
  lemma {:induction false} PublicationIsWritten()
    ensures MqttCodec.PublishBytes(MqttCodec.Publish(Text.Ascii("a/b"), Text.Ascii("hi"), 1, true, 10)) ==
            [0x33, 9, 0, 3, 97, 47, 98, 0, 10, 104, 105]
  {
    assert Text.Ascii("a/b") == [97, 47, 98] && Text.Ascii("hi") == [104, 105];
    var p := MqttCodec.Publish([97, 47, 98], [104, 105], 1, true, 10);
    assert MqttCodec.Body(p) == [0, 3, 97, 47, 98, 0, 10, 104, 105];
    assert MqttCodec.LengthBytes(9) == [9];
  }
}
