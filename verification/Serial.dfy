/** The two framing protocols of src/serial/serial_protocol.cpp. */
module Serial {
  import opened Bytes
  import opened Incremental

  // ---- lines -------------------------------------------------------------------------------------------

  function LineStep(delimiter: seq<byte>, buf: seq<byte>): Step<(), seq<byte>> {
    match Find(buf, delimiter)
    case None => More
    case Some(pos) => Took((), pos + |delimiter|, [buf[..pos]])
  }

  ghost function Lines(delimiter: seq<byte>): Stepper<(), seq<byte>> {
    (s: (), buf: seq<byte>) => LineStep(delimiter, buf)
  }

  /** `WrapFrame`. */
  function Wrapped(delimiter: seq<byte>, payload: seq<byte>): seq<byte> {
    payload + delimiter
  }

  ghost function Wrap(delimiter: seq<byte>): seq<byte> -> seq<byte> {
    (payload: seq<byte>) => Wrapped(delimiter, payload)
  }

  lemma {:induction false} LineTaken(delimiter: seq<byte>, buf: seq<byte>)
    requires delimiter != []
    ensures var d := Drain(Lines(delimiter), (), buf);
            match Find(buf, delimiter)
            case None => d == Reader((), buf, [], false)
            case Some(pos) => var e := Drain(Lines(delimiter), (), buf[pos + |delimiter|..]); d == e.(out := [buf[..pos]] + e.out)
  {
  }

  class LineProtocol {
    const delimiter: seq<byte>
    var buffer: seq<byte>

    constructor (delimiter: seq<byte>)
      ensures this.delimiter == delimiter && buffer == []
    {
      this.delimiter, buffer := delimiter, [];
    }

    /** With an empty delimiter the source's loop never ends; `endless` says so. */
    method OnData(data: seq<byte>) returns (frames: seq<seq<byte>>, endless: bool)
      modifies this`buffer
      ensures endless <==> delimiter == []
      ensures !endless ==>
                var d := Drain(Lines(delimiter), (), old(buffer) + data);
                && frames == d.out && buffer == d.rest && !d.halted
                && Find(buffer, delimiter) == None
    {
      hide Drain, Find;
      frames, endless := [], false;
      buffer := buffer + data;
      ghost var d := Drain(Lines(delimiter), (), buffer);
      var pos := Find(buffer, delimiter);
      NothingIsFound(buffer);
      while pos.Some?
        invariant pos == Find(buffer, delimiter)
        invariant delimiter == [] ==> pos == Some(0)
        invariant delimiter != [] ==> var e := Drain(Lines(delimiter), (), buffer); d == e.(out := frames + e.out)
        decreases |buffer|
      {
        if pos.value + |delimiter| == 0 {
          return [], true;
        }
        LineTaken(delimiter, buffer);
        frames := frames + [buffer[..pos.value]];
        buffer := buffer[pos.value + |delimiter|..];
        pos := Find(buffer, delimiter);
      }
      LineTaken(delimiter, buffer);
    }
  }

  /** An empty delimiter is found at once, always. */
  lemma {:induction false} NothingIsFound(buf: seq<byte>)
    ensures Find(buf, []) == Some(0)
  {
  }

  lemma {:induction false} LinesStable(delimiter: seq<byte>)
    ensures Stable(Lines(delimiter))
  {
    forall a: seq<byte>, b: seq<byte> | !LineStep(delimiter, a).More?
      ensures LineStep(delimiter, a + b) == LineStep(delimiter, a)
    {
      FindStable(a, b, delimiter);
      SliceOfPrefix(a, b, 0, Find(a, delimiter).value);
    }
  }

  lemma {:induction false} LinesConserve(delimiter: seq<byte>)
    ensures Conserving(Lines(delimiter), Wrap(delimiter))
  {
    forall buf: seq<byte> | LineStep(delimiter, buf).Took?
      ensures Wire(Wrap(delimiter), LineStep(delimiter, buf).out) == buf[..LineStep(delimiter, buf).count]
    {
      var pos, out := Find(buf, delimiter).value, LineStep(delimiter, buf).out;
      Found(buf, delimiter, pos);
      assert out[1..] == [] && Wire(Wrap(delimiter), []) == [];
      assert Wire(Wrap(delimiter), out) == Wrapped(delimiter, out[0]) + [];
      assert buf[..pos + |delimiter|] == buf[..pos] + buf[pos..pos + |delimiter|];
    }
  }

  lemma {:induction false} LeftoverHasNoDelimiter(delimiter: seq<byte>, buf: seq<byte>)
    requires delimiter != []
    ensures var d := Drain(Lines(delimiter), (), buf); !d.halted && Find(d.rest, delimiter) == None
    decreases |buf|
  {
    LineTaken(delimiter, buf);
    hide Drain, Find;
    match Find(buf, delimiter)
    case None =>
    case Some(pos) => LeftoverHasNoDelimiter(delimiter, buf[pos + |delimiter|..]);
  }

  /** For every way of cutting a stream into reads: the frames and the leftover are those of the whole
    * stream, each frame with its delimiter and then the leftover is the stream, and the leftover has no
    * delimiter in it. */
  lemma {:induction false} LineFraming(delimiter: seq<byte>, chunks: seq<seq<byte>>)
    requires delimiter != []
    ensures var r := FeedAll(Lines(delimiter), Start(()), chunks);
            && r == Drain(Lines(delimiter), (), Flat(chunks))
            && !r.halted
            && Wire(Wrap(delimiter), r.out) + r.rest == Flat(chunks)
            && Find(r.rest, delimiter) == None
  {
    LinesStable(delimiter);
    LinesConserve(delimiter);
    ChunkingUnobservable(Lines(delimiter), (), chunks, chunks);
    StreamConserved(Lines(delimiter), Wrap(delimiter), (), Flat(chunks));
    LeftoverHasNoDelimiter(delimiter, Flat(chunks));
  }

  /** A payload wrapped is read back exactly when the delimiter first occurs at the payload's end. */
  lemma {:induction false} WrappedReadsBack(delimiter: seq<byte>, payload: seq<byte>)
    requires delimiter != []
    ensures ReadsBack(Lines(delimiter), Wrap(delimiter), (), payload)
       <==> Find(Wrapped(delimiter, payload), delimiter) == Some(|payload|)
  {
    var w := Wrapped(delimiter, payload);
    Found(w, delimiter, |payload|);
    var p := Find(w, delimiter).value;
    if p == |payload| {
      forall rest ensures Lines(delimiter)((), w + rest) == Took((), |w|, [payload]) {
        FindStable(w, rest, delimiter);
        assert (w + rest)[..p] == payload;
      }
    } else {
      assert w + [] == w;
      assert Lines(delimiter)((), w + []).count != |w|;
    }
  }

  /** Frames that were wrapped arrive, however the stream is cut. */
  lemma {:induction false} LinesArrive(delimiter: seq<byte>, payloads: seq<seq<byte>>, chunks: seq<seq<byte>>)
    requires delimiter != []
    requires forall p :: p in payloads ==> Find(Wrapped(delimiter, p), delimiter) == Some(|p|)
    requires Flat(chunks) == Wire(Wrap(delimiter), payloads)
    ensures FeedAll(Lines(delimiter), Start(()), chunks) == Reader((), [], payloads, false)
  {
    forall p | p in payloads ensures ReadsBack(Lines(delimiter), Wrap(delimiter), (), p) {
      WrappedReadsBack(delimiter, p);
    }
    UnitsReadBack(Lines(delimiter), Wrap(delimiter), (), payloads);
    LinesStable(delimiter);
    ChunkingUnobservable(Lines(delimiter), (), chunks, chunks);
  }

  /** Every frame taken moves the loop on exactly when the delimiter is not empty. */
  lemma {:induction false} ProgressIffDelimiter(delimiter: seq<byte>)
    ensures (forall buf :: LineStep(delimiter, buf).Took? ==> LineStep(delimiter, buf).count > 0) <==> delimiter != []
  {
    if delimiter == [] {
      Found([], delimiter, 0);
      assert LineStep(delimiter, []).Took?;
    }
  }

  // ---- length fields -----------------------------------------------------------------------------------

  const UINT32: nat := 0x1_0000_0000

  /** The constructor's parameters, all of them 32-bit. With more than four little-endian bytes the source shifts a 32-bit
    * number too far, and with a header of 2^32 bytes or more it reads past its buffer; neither has a meaning. */
  datatype Config = Config(fieldSize: nat, bigEndian: bool, offset: nat, maxFrame: nat) {
    predicate Valid() {
      (fieldSize <= 4 || bigEndian) && offset + fieldSize < UINT32 && maxFrame < UINT32
    }

    /** Everything before the payload. */
    function Header(): nat {
      offset + fieldSize
    }

    /** Every length is below this. */
    function LengthLimit(): nat {
      if fieldSize <= 4 then Pow256(fieldSize) else UINT32
    }

    /** The longest payload that a length field can announce and the limit lets through. */
    function Longest(): nat {
      if maxFrame < LengthLimit() then maxFrame else LengthLimit() - 1
    }

    /** The header is its length, in one byte. */
    predicate OneByte() {
      offset == 0 && fieldSize == 1
    }
  }

  function FromLittleEndian(b: seq<byte>): nat {
    if b == [] then 0 else b[0] + 256 * FromLittleEndian(b[1..])
  }

  function LittleEndian(n: nat, k: nat): (r: seq<byte>)
    ensures |r| == k
    decreases k
  {
    if k == 0 then [] else [n % 256] + LittleEndian(n / 256, k - 1)
  }

  lemma {:induction false} LittleEndianRoundTrip(n: nat, k: nat)
    requires n < Pow256(k)
    ensures FromLittleEndian(LittleEndian(n, k)) == n
    decreases k
  {
    if k > 0 {
      assert LittleEndian(n, k)[1..] == LittleEndian(n / 256, k - 1);
      LittleEndianRoundTrip(n / 256, k - 1);
    }
  }

  lemma {:induction false} FromLittleEndianSnoc(b: seq<byte>, x: byte)
    ensures FromLittleEndian(b + [x]) == FromLittleEndian(b) + Pow256(|b|) * x
  {
    if b == [] {
      assert (b + [x])[1..] == [];
    } else {
      assert (b + [x])[1..] == b[1..] + [x];
      FromLittleEndianSnoc(b[1..], x);
      Shift(Pow256(|b| - 1), x);
    }
  }

  lemma {:induction false} Shift(p: nat, x: nat)
    ensures 256 * (p * x) == (256 * p) * x
  {
  }

  lemma {:induction false} FromLittleEndianBound(b: seq<byte>)
    ensures FromLittleEndian(b) < Pow256(|b|)
  {
    if b != [] {
      FromLittleEndianBound(b[1..]);
    }
  }

  /** Of more than four bytes only the last four are left in 32 bits. */
  function LengthOf(cfg: Config, field: seq<byte>): nat {
    if cfg.bigEndian then FromBigEndian(field) % UINT32 else FromLittleEndian(field)
  }

  function LengthField(cfg: Config, n: nat): (r: seq<byte>)
    ensures |r| == cfg.fieldSize
  {
    if cfg.bigEndian then BigEndian(n, cfg.fieldSize) else LittleEndian(n, cfg.fieldSize)
  }

  lemma {:induction false} LimitIs(cfg: Config)
    ensures cfg.LengthLimit() <= UINT32 && cfg.LengthLimit() <= Pow256(cfg.fieldSize)
  {
    Pow256Grows(cfg.fieldSize);
    Pow256Small();
  }

  lemma {:induction false} Pow256Grows(k: nat)
    ensures k >= 4 ==> Pow256(k) >= UINT32
  {
    if k > 4 {
      Pow256Grows(k - 1);
    } else {
      Pow256Small();
    }
  }

  lemma {:induction false} LengthFieldRoundTrip(cfg: Config, n: nat)
    requires n < cfg.LengthLimit()
    ensures LengthOf(cfg, LengthField(cfg, n)) == n
  {
    LimitIs(cfg);
    BigEndianRoundTrip(n, cfg.fieldSize);
    LittleEndianRoundTrip(n, cfg.fieldSize);
  }

  lemma {:induction false} LengthOfBound(cfg: Config, field: seq<byte>)
    requires cfg.Valid() && |field| == cfg.fieldSize
    ensures LengthOf(cfg, field) < cfg.LengthLimit()
  {
    LimitIs(cfg);
    FromBigEndianBound(field);
    FromLittleEndianBound(field);
    if cfg.fieldSize <= 4 {
      assert FromBigEndian(field) < Pow256(cfg.fieldSize) <= UINT32;
    }
  }

  /** One look at the front of the buffer; sizes are computed modulo 2^32. It halts where the source
    * clears the buffer. */
  function LengthStep(cfg: Config, buf: seq<byte>): (r: Step<(), seq<byte>>)
    ensures r.Took? ==> r.count <= |buf| && r.out == [buf[..r.count]]
  {
    if |buf| < cfg.Header() then More
    else
      var length := LengthOf(cfg, buf[cfg.offset..cfg.Header()]);
      var size := (cfg.Header() + length) % UINT32;
      if length > cfg.maxFrame then Halt((), [])
      else if |buf| < size then More
      else Took((), size, [buf[..size]])
  }

  ghost function Frames(cfg: Config): Stepper<(), seq<byte>> {
    (s: (), buf: seq<byte>) => LengthStep(cfg, buf)
  }

  /** Nothing is made of a buffer that is cleared. */
  function Dropped(buf: seq<byte>): seq<seq<byte>> {
    []
  }

  function Whole(frame: seq<byte>): seq<byte> {
    frame
  }

  /** No frame has size zero: there is a header, and the size of no frame wraps around. */
  predicate NoWrap(cfg: Config) {
    cfg.Header() > 0 && cfg.Header() + cfg.Longest() < UINT32
  }

  lemma {:induction false} Pow256Small()
    ensures Pow256(0) == 1 && Pow256(1) == 256 && Pow256(2) == 65536 && Pow256(3) == 16777216 && Pow256(4) == UINT32
  {
  }

  /** The frame that announces `length` bytes of payload but ends after its length field. */
  lemma {:induction false} Announce(cfg: Config, length: nat) returns (buf: seq<byte>)
    requires length < cfg.LengthLimit()
    ensures |buf| == cfg.Header() && LengthOf(cfg, buf[cfg.offset..cfg.Header()]) == length
  {
    buf := seq(cfg.offset, i => 0) + LengthField(cfg, length);
    LengthFieldRoundTrip(cfg, length);
    assert buf[cfg.offset..cfg.Header()] == LengthField(cfg, length);
  }

  /** Every frame taken moves the loop on exactly when there is a header and no size wraps around. */
  lemma {:induction false} ProgressIffNoWrap(cfg: Config)
    requires cfg.Valid()
    ensures (forall buf :: LengthStep(cfg, buf).Took? ==> LengthStep(cfg, buf).count > 0) <==> NoWrap(cfg)
  {
    hide FromBigEndian, FromLittleEndian, BigEndian, LittleEndian;
    if NoWrap(cfg) {
      forall buf | LengthStep(cfg, buf).Took? ensures LengthStep(cfg, buf).count > 0 {
        LengthOfBound(cfg, buf[cfg.offset..cfg.Header()]);
      }
    } else {
      LimitIs(cfg);
      var buf := Announce(cfg, if cfg.Header() == 0 then 0 else UINT32 - cfg.Header());
      assert LengthStep(cfg, buf) == Took((), 0, [buf[..0]]);
    }
  }

  class LengthProtocol {
    const cfg: Config
    var buffer: seq<byte>

    constructor (cfg: Config)
      requires cfg.Valid()
      ensures this.cfg == cfg && buffer == []
    {
      this.cfg, buffer := cfg, [];
    }

    /** At a frame whose size is zero or wraps around to zero the source's loop never ends; `endless` says so. */
    method OnData(data: seq<byte>) returns (frames: seq<seq<byte>>, endless: bool)
      requires cfg.Valid()
      modifies this`buffer
      ensures endless <==> Stuck(cfg, old(buffer) + data)
      ensures !endless ==>
                var p := Pass(Frames(cfg), Dropped, (), old(buffer) + data);
                frames == p.out && buffer == p.rest && LengthStep(cfg, buffer).More?
    {
      hide Pass, Drain, Stuck, LengthOf, Config.Longest;
      frames, endless := [], false;
      buffer := buffer + data;
      ghost var p, stuck := Pass(Frames(cfg), Dropped, (), buffer), Stuck(cfg, buffer);
      while |buffer| >= cfg.offset + cfg.fieldSize
        invariant var q := Pass(Frames(cfg), Dropped, (), buffer); p == q.(out := frames + q.out)
        invariant stuck == Stuck(cfg, buffer)
        decreases |buffer|
      {
        PassAfter(cfg, buffer);
        StuckAfter(cfg, buffer);
        var field := buffer[cfg.offset..cfg.offset + cfg.fieldSize];
        var payloadLen := ReadLength(field);
        if payloadLen > cfg.maxFrame {
          buffer := [];
          NothingPassed(cfg);
          if field == [] {
            NoField(cfg, field);
          }
          return;
        }
        var frameSize := (cfg.offset + cfg.fieldSize + payloadLen) % UINT32;
        if |buffer| < frameSize {
          break;
        }
        if frameSize == 0 {
          return [], true;
        }
        frames := frames + [buffer[..frameSize]];
        buffer := buffer[frameSize..];
      }
      PassAfter(cfg, buffer);
      StuckAfter(cfg, buffer);
    }

    /** The two loops that read the length field into a 32-bit number. */
    method ReadLength(field: seq<byte>) returns (n: nat)
      requires |field| <= 4 || cfg.bigEndian
      ensures n == LengthOf(cfg, field)
    {
      n := 0;
      assert field[..|field|] == field;
      for i := 0 to |field|
        invariant n == LengthOf(cfg, field[..i])
      {
        assert field[..i + 1] == field[..i] + [field[i]];
        assert field[..i + 1][..i] == field[..i];
        if cfg.bigEndian {
          ShiftIn(FromBigEndian(field[..i]), field[i]);
          n := (n * 256) % UINT32 + field[i];
        } else {
          FromLittleEndianSnoc(field[..i], field[i]);
          n := n + Pow256(i) * field[i];
        }
      }
    }
  }

  lemma {:induction false} ShiftIn(n: nat, b: byte)
    ensures (n % UINT32 * 256) % UINT32 + b == (n * 256 + b) % UINT32
  {
    var q, r := n / UINT32, n % UINT32;
    var h, l := r / 16777216, r % 16777216;
    assert n * 256 + b == (256 * q + h) * UINT32 + (l * 256 + b);
    Residue(256 * q + h, l * 256 + b);
    assert r * 256 == h * UINT32 + l * 256;
    Residue(h, l * 256);
  }

  lemma {:induction false} Residue(q: nat, r: nat)
    requires r < UINT32
    ensures (q * UINT32 + r) % UINT32 == r
  {
  }

  /** The loop comes to a frame that takes nothing off the buffer. */
  ghost predicate Stuck(cfg: Config, buf: seq<byte>) {
    var d := Drain(Frames(cfg), (), buf);
    !d.halted && LengthStep(cfg, d.rest).Took?
  }

  lemma {:induction false} StuckAfter(cfg: Config, buf: seq<byte>)
    ensures Stuck(cfg, buf) <==>
            match LengthStep(cfg, buf)
            case More => false
            case Halt(_, _) => false
            case Took(_, n, _) => n == 0 || Stuck(cfg, buf[n..])
  {
  }

  /** No buffer makes the loop run forever exactly when there is a header and no size wraps around. */
  lemma {:induction false} StuckIffWrap(cfg: Config)
    requires cfg.Valid()
    ensures (forall buf :: !Stuck(cfg, buf)) <==> NoWrap(cfg)
  {
    ProgressIffNoWrap(cfg);
    hide NoWrap, LengthStep;
    if NoWrap(cfg) {
      forall buf ensures !Stuck(cfg, buf) {
        NeverStuck(cfg, buf);
      }
    } else {
      var buf :| LengthStep(cfg, buf).Took? && LengthStep(cfg, buf).count == 0;
      StuckAfter(cfg, buf);
      assert Stuck(cfg, buf);
    }
  }

  lemma {:induction false} NeverStuck(cfg: Config, buf: seq<byte>)
    requires forall b :: LengthStep(cfg, b).Took? ==> LengthStep(cfg, b).count > 0
    ensures !Stuck(cfg, buf)
    decreases |buf|
  {
    StuckAfter(cfg, buf);
    hide Stuck;
    if LengthStep(cfg, buf).Took? {
      NeverStuck(cfg, buf[LengthStep(cfg, buf).count..]);
    }
  }

  lemma {:induction false} NothingRead(cfg: Config)
    ensures Drain(Frames(cfg), (), []) == Reader((), [], [], false)
  {
    NoField(cfg, []);
  }

  lemma {:induction false} NothingPassed(cfg: Config)
    ensures Pass(Frames(cfg), Dropped, (), []) == Reader((), [], [], false)
  {
    NothingRead(cfg);
    hide Drain;
  }

  /** Where there is no length field there is no length. */
  lemma {:induction false} NoField(cfg: Config, field: seq<byte>)
    requires field == []
    ensures LengthOf(cfg, field) == 0
  {
  }

  lemma {:induction false} PassAfter(cfg: Config, buf: seq<byte>)
    ensures var st, p := LengthStep(cfg, buf), Pass(Frames(cfg), Dropped, (), buf);
            match st
            case More => p == Reader((), buf, [], false)
            case Halt(_, _) => p == Reader((), [], [], false)
            case Took(_, n, es) =>
              n > 0 ==> var q := Pass(Frames(cfg), Dropped, (), buf[n..]); p == q.(out := es + q.out)
  {
    var st := LengthStep(cfg, buf);
    if st.Took? && st.count > 0 {
      var d := Drain(Frames(cfg), (), buf[st.count..]);
      Associate(st.out, d.out, Dropped(d.rest));
    }
  }

  lemma {:induction false} FramesStable(cfg: Config)
    ensures Stable(Frames(cfg))
  {
    forall a: seq<byte>, b: seq<byte> | !LengthStep(cfg, a).More? ensures LengthStep(cfg, a + b) == LengthStep(cfg, a) {
      hide LengthOf;
      SliceOfPrefix(a, b, cfg.offset, cfg.Header());
      var st := LengthStep(cfg, a);
      if st.Took? {
        SliceOfPrefix(a, b, 0, st.count);
      }
    }
  }

  lemma {:induction false} FramesConserve(cfg: Config)
    ensures Conserving(Frames(cfg), Whole)
  {
    forall buf: seq<byte> | LengthStep(cfg, buf).Took?
      ensures Wire(Whole, LengthStep(cfg, buf).out) == buf[..LengthStep(cfg, buf).count]
    {
      hide LengthStep;
      var out := LengthStep(cfg, buf).out;
      assert out[1..] == [] && Wire(Whole, []) == [];
      assert Wire(Whole, out) == Whole(out[0]) + [];
    }
  }

  /** For every way of cutting a stream into reads: the frames before the first length over the limit come
    * out first. If there is none, the frames and the leftover are those of the whole stream, and together
    * they are the stream. Where sizes wrap around this is what the reads hand out before a call that never
    * returns (`Stuck`); there is no such call where none wraps (`StuckIffWrap`). */
  lemma {:induction false} LengthFraming(cfg: Config, chunks: seq<seq<byte>>)
    requires cfg.Valid()
    ensures var whole, r := Drain(Frames(cfg), (), Flat(chunks)), Passes(Frames(cfg), Dropped, (), [], chunks);
            && whole.out <= r.out
            && (!whole.halted ==> r == whole && Wire(Whole, r.out) + r.rest == Flat(chunks))
  {
    FramesStable(cfg);
    FramesConserve(cfg);
    assert [] + Flat(chunks) == Flat(chunks);
    NothingRead(cfg);
    PassesFollowStream(Frames(cfg), Dropped, (), [], chunks);
    StreamConserved(Frames(cfg), Whole, (), Flat(chunks));
  }

  /** A frame whose length field counts its payload, within the limit. */
  predicate WellFormed(cfg: Config, frame: seq<byte>) {
    |frame| >= cfg.Header() &&
    var length := LengthOf(cfg, frame[cfg.offset..cfg.Header()]);
    length <= cfg.maxFrame && |frame| == cfg.Header() + length
  }

  /** The frames that are read back, whatever follows them, are the well-formed ones. */
  lemma {:induction false} ReadsBackIffWellFormed(cfg: Config, frame: seq<byte>)
    requires cfg.Valid() && NoWrap(cfg)
    ensures ReadsBack(Frames(cfg), Whole, (), frame) <==> WellFormed(cfg, frame)
  {
    hide LengthOf;
    if |frame| >= cfg.Header() {
      var field := frame[cfg.offset..cfg.Header()];
      LengthOfBound(cfg, field);
      if WellFormed(cfg, frame) {
        forall rest ensures Frames(cfg)((), Whole(frame) + rest) == Took((), |frame|, [frame]) {
          SliceOfPrefix(frame, rest, cfg.offset, cfg.Header());
          SliceOfPrefix(frame, rest, 0, |frame|);
        }
      }
    }
    if ReadsBack(Frames(cfg), Whole, (), frame) {
      assert Whole(frame) + [] == frame;
      assert Frames(cfg)((), Whole(frame) + []) == Took((), |frame|, [frame]);
    }
  }

  /** Well-formed frames arrive, however the stream is cut. */
  lemma {:induction false} FramesArrive(cfg: Config, frames: seq<seq<byte>>, chunks: seq<seq<byte>>)
    requires cfg.Valid() && NoWrap(cfg)
    requires forall f :: f in frames ==> WellFormed(cfg, f)
    requires Flat(chunks) == Flat(frames)
    ensures Passes(Frames(cfg), Dropped, (), [], chunks) == Reader((), [], frames, false)
  {
    hide WellFormed;
    forall f | f in frames ensures ReadsBack(Frames(cfg), Whole, (), f) {
      ReadsBackIffWellFormed(cfg, f);
    }
    WireIsFlat(frames);
    hide ReadsBack;
    UnitsReadBack(Frames(cfg), Whole, (), frames);
    LengthFraming(cfg, chunks);
  }

  lemma {:induction false} WireIsFlat(frames: seq<seq<byte>>)
    ensures Wire(Whole, frames) == Flat(frames)
  {
    if frames != [] {
      WireIsFlat(frames[1..]);
    }
  }

  // ---- past a length over the limit ------------------------------------------------------------------------

  /** What a protocol object makes of a stream that comes in these reads. */
  ghost function Received(cfg: Config, chunks: seq<seq<byte>>): Reader<(), seq<byte>> {
    Passes(Frames(cfg), Dropped, (), [], chunks)
  }

  /** All ways of cutting the stream end alike: in the frames handed out and in what is left. */
  ghost predicate CutsAgree(cfg: Config, stream: seq<byte>) {
    forall xs: seq<seq<byte>>, ys: seq<seq<byte>> :: Flat(xs) == stream && Flat(ys) == stream ==> Received(cfg, xs) == Received(cfg, ys)
  }

  /** No length is over the limit, or nothing follows it that could be read: nothing at all, or, where a header is one
    * byte, only further lengths over the limit. */
  ghost predicate NothingFollows(cfg: Config, stream: seq<byte>) {
    var d := Drain(Frames(cfg), (), stream);
    || !d.halted
    || |d.rest| == cfg.Header()
    || (cfg.OneByte() && forall i :: 0 <= i < |d.rest| ==> d.rest[i] as nat > cfg.maxFrame)
  }

  /** Where a drain halts, the rest of the buffer starts with a length over the limit. */
  lemma {:induction false} HaltedAt(cfg: Config, buf: seq<byte>)
    ensures var d := Drain(Frames(cfg), (), buf);
            && |d.rest| <= |buf| && d.rest == buf[|buf| - |d.rest|..]
            && (d.halted ==> LengthStep(cfg, d.rest).Halt? && |d.rest| >= cfg.Header())
    decreases |buf|
  {
    var st := LengthStep(cfg, buf);
    if st.Took? && st.count > 0 {
      HaltedAt(cfg, buf[st.count..]);
    }
  }

  /** The loop on a buffer from whose front a step is taken. */
  lemma {:induction false} DrainStep(cfg: Config, buf: seq<byte>)
    ensures var st, d := LengthStep(cfg, buf), Drain(Frames(cfg), (), buf);
            match st
            case More => d == Reader((), buf, [], false)
            case Halt(_, _) => d == Reader((), buf, [], true)
            case Took(_, n, es) => if n == 0 then !d.halted else var e := Drain(Frames(cfg), (), buf[n..]); d == e.(out := es + e.out)
  {
  }

  /** A header that is read already is read alike. */
  lemma {:induction false} SameHeader(cfg: Config, buf: seq<byte>, a: nat)
    requires cfg.Header() <= a <= |buf|
    ensures var st, early := LengthStep(cfg, buf), LengthStep(cfg, buf[..a]);
            && (st.Halt? ==> early.Halt?)
            && (st.Took? && st.count <= a ==> early == st)
  {
    assert buf[..a][cfg.offset..cfg.Header()] == buf[cfg.offset..cfg.Header()];
    hide LengthOf;
    var st := LengthStep(cfg, buf);
    if st.Took? && st.count <= a {
      assert buf[..a][..st.count] == buf[..st.count];
    }
  }

  /** It halts there too if less of the stream has been read, as long as the length has. */
  lemma {:induction false} HaltsEarlier(cfg: Config, buf: seq<byte>, c: nat)
    requires var d := Drain(Frames(cfg), (), buf); d.halted && c + cfg.Header() <= |d.rest|
    ensures c <= |buf|
    ensures var d, e := Drain(Frames(cfg), (), buf), Drain(Frames(cfg), (), buf[..|buf| - c]); e.halted && e.out == d.out
    decreases |buf|
  {
    hide Drain, LengthStep;
    HaltedAt(cfg, buf);
    var st, a := LengthStep(cfg, buf), |buf| - c;
    DrainStep(cfg, buf);
    DrainStep(cfg, buf[..a]);
    SameHeader(cfg, buf, a);
    if st.Took? {
      var rest := buf[st.count..];
      HaltedAt(cfg, rest);
      HaltsEarlier(cfg, rest, c);
      assert buf[..a][st.count..] == rest[..|rest| - c];
    }
  }

  /** The first of several reads: the buffer is cleared, or the loop goes on with what is left. */
  lemma {:induction false} FirstRead(cfg: Config, buf: seq<byte>, chunks: seq<seq<byte>>)
    requires chunks != []
    ensures var e := Drain(Frames(cfg), (), buf + chunks[0]);
            var r := Passes(Frames(cfg), Dropped, (), if e.halted then [] else e.rest, chunks[1..]);
            var d := Drain(Frames(cfg), (), buf + Flat(chunks));
            && Passes(Frames(cfg), Dropped, (), buf, chunks) == r.(out := e.out + r.out)
            && (e.halted ==> d == e.(rest := e.rest + Flat(chunks[1..])))
            && (!e.halted ==>
                  var f := Drain(Frames(cfg), (), e.rest + Flat(chunks[1..]));
                  && d == f.(out := e.out + f.out)
                  && Drain(Frames(cfg), (), e.rest) == Reader((), e.rest, [], false))
  {
    hide Drain;
    var e := Drain(Frames(cfg), (), buf + chunks[0]);
    assert e.state == ();
    FramesStable(cfg);
    Associate(buf, chunks[0], Flat(chunks[1..]));
    DrainSplit(Frames(cfg), (), buf + chunks[0], Flat(chunks[1..]));
    DrainedAfter(Frames(cfg), (), buf + chunks[0]);
    assert e.out + Dropped(e.rest) == e.out;
  }

  /** A stream with a length over the limit, however it is cut: what is left of it after the read that brings that length
    * is read as a stream of its own. */
  lemma {:induction false} ReadOn(cfg: Config, buf: seq<byte>, chunks: seq<seq<byte>>) returns (k: nat)
    requires Drain(Frames(cfg), (), buf) == Reader((), buf, [], false)
    requires Drain(Frames(cfg), (), buf + Flat(chunks)).halted
    ensures k <= |chunks|
    ensures var d, r := Drain(Frames(cfg), (), buf + Flat(chunks)), Received(cfg, chunks[k..]);
            && Passes(Frames(cfg), Dropped, (), buf, chunks) == r.(out := d.out + r.out)
            && |Flat(chunks[k..])| + cfg.Header() <= |d.rest|
            && Flat(chunks[k..]) == d.rest[|d.rest| - |Flat(chunks[k..])|..]
    decreases |chunks|
  {
    hide Drain, Passes, LengthStep;
    assert chunks != [] by {
      assert buf + [] == buf;
    }
    FirstRead(cfg, buf, chunks);
    var e := Drain(Frames(cfg), (), buf + chunks[0]);
    HaltedAt(cfg, buf + chunks[0]);
    if e.halted {
      k := 1;
    } else {
      k := ReadOn(cfg, e.rest, chunks[1..]);
      assert chunks[1..][k..] == chunks[k + 1..];
      Associate(e.out, Drain(Frames(cfg), (), e.rest + Flat(chunks[1..])).out, Received(cfg, chunks[k + 1..]).out);
      k := k + 1;
    }
  }

  /** Of bytes that nothing can be read from, nothing is left. */
  lemma {:induction false} AllCleared(cfg: Config, chunks: seq<seq<byte>>)
    requires cfg.Valid()
    requires Flat(chunks) == [] || (cfg.OneByte() && forall b :: b in Flat(chunks) ==> b as nat > cfg.maxFrame)
    ensures Received(cfg, chunks) == Reader((), [], [], false)
    decreases |chunks|
  {
    hide Pass;
    if chunks != [] {
      var c := chunks[0];
      assert [] + c == c;
      if c != [] {
        PassAfter(cfg, c);
        assert c[0] in Flat(chunks);
        OneByteLength(cfg, c);
      } else {
        NothingPassed(cfg);
      }
      assert forall b :: b in Flat(chunks[1..]) ==> b in Flat(chunks);
      AllCleared(cfg, chunks[1..]);
    }
  }

  /** A header of one byte is its length. */
  lemma {:induction false} OneByteLength(cfg: Config, buf: seq<byte>)
    requires cfg.OneByte() && buf != []
    ensures LengthOf(cfg, buf[cfg.offset..cfg.Header()]) == buf[0]
  {
    assert buf[0..1] == [buf[0]];
    assert [buf[0]][..0] == [] && [buf[0]][1..] == [];
    assert FromBigEndian([]) == 0 && FromLittleEndian([]) == 0;
  }

  lemma {:induction false} AgreeIfNothingFollows(cfg: Config, stream: seq<byte>, chunks: seq<seq<byte>>)
    requires cfg.Valid() && NothingFollows(cfg, stream) && Flat(chunks) == stream
    ensures var d := Drain(Frames(cfg), (), stream);
            Received(cfg, chunks) == if d.halted then Reader((), [], d.out, false) else d
  {
    hide Drain, Passes, LengthStep;
    var d := Drain(Frames(cfg), (), stream);
    assert [] + stream == stream;
    NothingRead(cfg);
    if d.halted {
      var k := ReadOn(cfg, [], chunks);
      var rest := Flat(chunks[k..]);
      assert forall b :: b in rest ==> b in d.rest;
      AllCleared(cfg, chunks[k..]);
      assert d.out + [] == d.out;
    } else {
      FramesStable(cfg);
      PassesFollowStream(Frames(cfg), Dropped, (), [], chunks);
    }
  }

  function InOne(a: seq<byte>): seq<seq<byte>> {
    [a]
  }

  function InTwo(a: seq<byte>, b: seq<byte>): seq<seq<byte>> {
    [a, b]
  }

  lemma {:induction false} OneRead(cfg: Config, a: seq<byte>)
    ensures Flat(InOne(a)) == a && Received(cfg, InOne(a)) == Pass(Frames(cfg), Dropped, (), a)
  {
    var p := Pass(Frames(cfg), Dropped, (), a);
    hide Pass;
    var none: seq<byte> := [];
    var noneYet: seq<seq<byte>> := [];
    assert p.state == ();
    assert InOne(a)[1..] == noneYet && none + a == a && a + none == a && Flat(noneYet) == none;
    assert Passes(Frames(cfg), Dropped, p.state, p.rest, noneYet) == Reader((), p.rest, [], false);
    assert p.out + noneYet == p.out;
    assert !p.halted by {
      NotHalted(cfg, a);
    }
  }

  lemma {:induction false} NotHalted(cfg: Config, a: seq<byte>)
    ensures !Pass(Frames(cfg), Dropped, (), a).halted
  {
  }

  lemma {:induction false} TwoReads(cfg: Config, a: seq<byte>, b: seq<byte>)
    ensures Flat(InTwo(a, b)) == a + b
    ensures var p := Pass(Frames(cfg), Dropped, (), a);
            p.rest == [] ==> var q := Pass(Frames(cfg), Dropped, (), b); Received(cfg, InTwo(a, b)) == q.(out := p.out + q.out)
  {
    var p := Pass(Frames(cfg), Dropped, (), a);
    hide Pass;
    var none: seq<byte> := [];
    assert p.state == ();
    assert InTwo(a, b)[1..] == InOne(b) && none + a == a;
    OneRead(cfg, b);
  }

  /** Two reads, cut behind the length over the limit. */
  lemma {:induction false} CutInTwo(cfg: Config, stream: seq<byte>, c: nat)
    requires var d := Drain(Frames(cfg), (), stream); d.halted && c + cfg.Header() <= |d.rest|
    ensures c <= |stream|
    ensures var a, b := stream[..|stream| - c], stream[|stream| - c..];
            var p, q := Pass(Frames(cfg), Dropped, (), stream), Pass(Frames(cfg), Dropped, (), b);
            && Flat(InTwo(a, b)) == stream && Flat(InOne(stream)) == stream
            && Received(cfg, InOne(stream)) == p == Reader((), [], p.out, false)
            && Received(cfg, InTwo(a, b)) == q.(out := p.out + q.out)
  {
    HaltsEarlier(cfg, stream, c);
    hide *;
    var a, b := stream[..|stream| - c], stream[|stream| - c..];
    ClearedAtHalt(cfg, stream);
    ClearedAtHalt(cfg, a);
    assert a + b == stream;
    OneRead(cfg, stream);
    TwoReads(cfg, a, b);
  }

  lemma {:induction false} ClearedAtHalt(cfg: Config, buf: seq<byte>)
    ensures var d := Drain(Frames(cfg), (), buf);
            d.halted ==> Pass(Frames(cfg), Dropped, (), buf) == Reader((), [], d.out, false)
  {
    var d := Drain(Frames(cfg), (), buf);
    hide Drain;
    assert d.state == ();
    var none: seq<seq<byte>> := [];
    assert Dropped(d.rest) == none && d.out + none == d.out;
  }

  /** Bytes that begin a frame leave a trace. */
  lemma {:induction false} SomethingComes(cfg: Config, x: seq<byte>)
    requires cfg.Valid() && NoWrap(cfg) && x != []
    requires if cfg.OneByte() then x[0] as nat <= cfg.maxFrame else |x| == 1
    ensures var q := Pass(Frames(cfg), Dropped, (), x); q.out != [] || q.rest != []
  {
    PassAfter(cfg, x);
    if cfg.OneByte() {
      OneByteLength(cfg, x);
      LengthOfBound(cfg, x[cfg.offset..cfg.Header()]);
    }
    hide Pass;
  }

  /** Where something that could be read follows a length over the limit, there is a cut in front of it. */
  lemma {:induction false} CutInFront(cfg: Config, stream: seq<byte>) returns (c: nat)
    requires cfg.Valid() && NoWrap(cfg) && !NothingFollows(cfg, stream)
    ensures var d := Drain(Frames(cfg), (), stream);
            d.halted && 0 < c && c + cfg.Header() <= |d.rest| <= |stream| &&
            var x := stream[|stream| - c..];
            if cfg.OneByte() then x[0] as nat <= cfg.maxFrame else |x| == 1
  {
    var d := Drain(Frames(cfg), (), stream);
    HaltedAt(cfg, stream);
    hide Drain;
    c := 1;
    if cfg.OneByte() {
      var i :| 0 <= i < |d.rest| && d.rest[i] as nat <= cfg.maxFrame;
      OneByteLength(cfg, d.rest);
      c := |d.rest| - i;
    }
  }

  lemma {:induction false} CutsDisagree(cfg: Config, stream: seq<byte>)
    requires cfg.Valid() && NoWrap(cfg) && !NothingFollows(cfg, stream)
    ensures !CutsAgree(cfg, stream)
  {
    hide Drain, Received, NothingFollows, Pass, Flat;
    var c := CutInFront(cfg, stream);
    CutInTwo(cfg, stream, c);
    var a, b := stream[..|stream| - c], stream[|stream| - c..];
    SomethingComes(cfg, b);
    assert Received(cfg, InOne(stream)) != Received(cfg, InTwo(a, b));
  }

  /** The reads matter exactly if something that could be read follows a length over the limit. */
  lemma {:induction false} CutsAgreeIff(cfg: Config, stream: seq<byte>)
    requires cfg.Valid() && NoWrap(cfg)
    ensures CutsAgree(cfg, stream) <==> NothingFollows(cfg, stream)
  {
    hide Received, NothingFollows, Flat;
    if NothingFollows(cfg, stream) {
      forall xs: seq<seq<byte>>, ys: seq<seq<byte>> | Flat(xs) == stream && Flat(ys) == stream ensures Received(cfg, xs) == Received(cfg, ys) {
        AgreeIfNothingFollows(cfg, stream, xs);
        AgreeIfNothingFollows(cfg, stream, ys);
      }
    } else {
      CutsDisagree(cfg, stream);
    }
  }

  /** For one, the same three bytes in one read and in two. */
  lemma {:induction false} OverLimitDependsOnReads()
    ensures var cfg := Config(1, true, 0, 1);
            && Passes(Frames(cfg), Dropped, (), [], [[5, 1, 9]]).out == []
            && Passes(Frames(cfg), Dropped, (), [], [[5], [1, 9]]).out == [[1, 9]]
  {
    var cfg := Config(1, true, 0, 1);
    hide Pass;
    ShortField(cfg, [5, 1, 9]);
    ShortField(cfg, [5]);
    ShortField(cfg, [1, 9]);
    PassAfter(cfg, [5, 1, 9]);
    PassAfter(cfg, [5]);
    PassAfter(cfg, [1, 9]);
    PassAfter(cfg, []);
    assert [1, 9][2..] == [] && [1, 9][..2] == [1, 9];
    assert [[5, 1, 9]][1..] == [] && [[5], [1, 9]][1..] == [[1, 9]] && [[1, 9]][1..] == [];
    assert [] + [5, 1, 9] == [5, 1, 9] && [] + [5] == [5] && [] + [1, 9] == [1, 9];
  }

  lemma {:induction false} ShortField(cfg: Config, buf: seq<byte>)
    requires cfg == Config(1, true, 0, 1) && buf != []
    ensures LengthOf(cfg, buf[cfg.offset..cfg.Header()]) == buf[0]
  {
    assert buf[0..1] == [buf[0]];
    assert [buf[0]][..0] == [];
    assert FromBigEndian([]) == 0;
  }
}
