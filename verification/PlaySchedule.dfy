/**
  * What a receiver of a played file is entitled to, packet by packet: which unit and which part of it a
  * packet carries, in which frame that unit is, and what the packet's header fields say about both. It is
  * stated on the list of units alone, with the numbers of section 7.4.1 of H.264 and of RFC 6184 (types 1 to
  * 5 are slices, 5 an IDR slice, 9 a delimiter; the clock runs at 90 kHz).
  */
module PlaySchedule {
  import opened Bytes
  import opened AnnexB
  import opened H264Source

  /** The number of slices among the first `i` units. */
  function Slices(nals: seq<Nal>, i: nat): nat
    requires i <= |nals|
  {
    if i == 0 then 0 else Slices(nals, i - 1) + (if 1 <= nals[i - 1].kind <= 5 then 1 else 0)
  }

  /** The frame unit `i` is in: the first slice and all before the second are in frame 0, and every further
    * slice starts the next frame. */
  function FrameNumber(nals: seq<Nal>, i: nat): nat
    requires i < |nals|
  {
    var n := Slices(nals, i + 1);
    if n == 0 then 0 else n - 1
  }

  /** Part `part` of unit `unit`. */
  datatype Slot = Slot(unit: nat, part: nat)

  /** The parts of unit `i`; none if it is a delimiter behind the front of the file. */
  function UnitSlots(nals: seq<Nal>, i: nat): seq<Slot>
    requires i < |nals|
  {
    if i > 0 && nals[i].kind == 9 then []
    else seq(|Payloads(nals[i].data)|, part requires 0 <= part < |Payloads(nals[i].data)| => Slot(i, part))
  }

  /** The parts of the units from `i` to before `j`. */
  function SlotsBetween(nals: seq<Nal>, i: nat, j: nat): (r: seq<Slot>)
    requires i <= j <= |nals|
    ensures i == 0 < j ==> r != []
    decreases j
  {
    if i == j then [] else SlotsBetween(nals, i, j - 1) + UnitSlots(nals, j - 1)
  }

  /** The parts sent in `n` runs through the file. */
  function SlotsOfLaps(nals: seq<Nal>, n: nat): (r: seq<Slot>)
    ensures nals != [] ==> |r| >= n
  {
    if n == 0 then [] else SlotsOfLaps(nals, n - 1) + SlotsBetween(nals, 0, |nals|)
  }

  /** What the packets are made from. */
  datatype Source = Source(nals: seq<Nal>, frameRate: nat, rtpTimestamp: nat) {
    /** The timestamp of frame `f`, counted from the start of the run. */
    function TimeOf(f: nat): nat
      requires frameRate > 0
    {
      (rtpTimestamp + f * (90000 / frameRate)) % 0x1_0000_0000
    }
  }

  ghost predicate ClockShowed(t: nat, clocks: seq<nat -> nat>) {
    exists c, j :: 0 <= c < |clocks| && clocks[c](j) == t
  }

  /** The packet of a slot: its part of the unit, marked if it is the last one, with the type of the unit, at the
    * time of the frame, except that the clock is read instead of sending time zero. */
  ghost predicate Shows(p: RtpPacket, slot: Slot, src: Source, clocks: seq<nat -> nat>) {
    && src.frameRate > 0 && slot.unit < |src.nals|
    && var nal, parts := src.nals[slot.unit], Payloads(src.nals[slot.unit].data);
    && slot.part < |parts|
    && p.payload == parts[slot.part]
    && (p.last <==> slot.part == |parts| - 1)
    && p.kind == (if nal.kind == 5 then 1 else 2)
    && var t := src.TimeOf(FrameNumber(src.nals, slot.unit));
    && (t != 0 ==> p.timestamp == t)
    && (t == 0 ==> ClockShowed(p.timestamp, clocks))
  }

  /** One packet for each slot, and one time for all parts of a unit. */
  ghost predicate Matches(packets: seq<RtpPacket>, slots: seq<Slot>, src: Source, clocks: seq<nat -> nat>) {
    && |packets| == |slots|
    && (forall n :: 0 <= n < |packets| ==> Shows(packets[n], slots[n], src, clocks))
    && (forall n :: 0 < n < |packets| && slots[n].part > 0 ==> packets[n].timestamp == packets[n - 1].timestamp)
  }

  // ---- frames -----------------------------------------------------------------------------------------

  lemma {:induction false} SlicesGrow(nals: seq<Nal>, i: nat, j: nat)
    requires i <= j <= |nals|
    ensures Slices(nals, i) <= Slices(nals, j)
    decreases j
  {
    if i < j {
      SlicesGrow(nals, i, j - 1);
    }
  }

  lemma {:induction false} SomeSlice(nals: seq<Nal>, i: nat)
    requires i <= |nals|
    ensures Slices(nals, i) > 0 <==> exists k :: 0 <= k < i && 1 <= nals[k].kind <= 5
  {
    if i > 0 {
      SomeSlice(nals, i - 1);
      if 1 <= nals[i - 1].kind <= 5 {
        assert 0 <= i - 1 < i;
      }
    }
  }

  /** A frame ends exactly before a slice that follows a slice. */
  lemma {:induction false} FrameBoundary(nals: seq<Nal>, i: nat)
    requires i + 1 < |nals|
    ensures FrameNumber(nals, i + 1) == FrameNumber(nals, i) + (if FrameNumber(nals, i + 1) == FrameNumber(nals, i) then 0 else 1)
    ensures FrameNumber(nals, i + 1) != FrameNumber(nals, i) <==>
            1 <= nals[i + 1].kind <= 5 && exists k :: 0 <= k <= i && 1 <= nals[k].kind <= 5
  {
    SomeSlice(nals, i + 1);
    if Slices(nals, i + 1) > 0 {
      var k :| 0 <= k < i + 1 && 1 <= nals[k].kind <= 5;
      assert 0 <= k <= i;
    }
  }

  // ---- times ------------------------------------------------------------------------------------------

  lemma {:induction false} TimeAfter(src: Source, f: nat, g: nat)
    requires src.frameRate > 0
    ensures src.TimeOf(f + g) == (src.TimeOf(f) + g * (90000 / src.frameRate)) % 0x1_0000_0000
  {
    var inc := 90000 / src.frameRate;
    Distribute(f, g, inc);
    ModAdd(src.rtpTimestamp + f * inc, g * inc);
  }

  lemma {:induction false} Distribute(f: nat, g: nat, x: nat)
    ensures (f + g) * x == f * x + g * x
  {
  }

  lemma {:induction false} ModAdd(x: nat, y: nat)
    ensures (x % 0x1_0000_0000 + y) % 0x1_0000_0000 == (x + y) % 0x1_0000_0000
  {
    var m := 0x1_0000_0000;
    var q, r := x / m, x % m;
    var p, s := (r + y) / m, (r + y) % m;
    assert x + y == m * (q + p) + s;
  }

  /** The frame index wraps at 2^32 and the time with it. */
  lemma {:induction false} TimeWraps(src: Source, f: nat)
    requires src.frameRate > 0
    ensures src.TimeOf(f % 0x1_0000_0000) == src.TimeOf(f)
  {
    var m, inc := 0x1_0000_0000, 90000 / src.frameRate;
    var q, r := f / m, f % m;
    assert f == m * q + r;
    Distribute(m * q, r, inc);
    Regroup(m, q, inc);
    MultipleVanishes(q * inc, src.rtpTimestamp + r * inc);
  }

  lemma {:induction false} Regroup(m: nat, q: nat, inc: nat)
    ensures (m * q) * inc == m * (q * inc)
  {
  }

  lemma {:induction false} MultipleVanishes(k: nat, x: nat)
    ensures (0x1_0000_0000 * k + x) % 0x1_0000_0000 == x % 0x1_0000_0000
  {
    var m := 0x1_0000_0000;
    var q, r := x / m, x % m;
    assert m * k + x == m * (k + q) + r;
  }

  /** Every run through the file starts at the session's timestamp. */
  lemma {:induction false} RunStarts(src: Source)
    requires src.nals != [] && src.frameRate > 0
    ensures FrameNumber(src.nals, 0) == 0 && src.TimeOf(0) == src.rtpTimestamp % 0x1_0000_0000
  {
    assert Slices(src.nals, 0) == 0;
  }

  /** A whole second: as many frames as the rate says are 90000 ticks, exactly if the rate divides 90000. */
  lemma {:induction false} SecondOfFrames(src: Source, f: nat)
    requires 0 < src.frameRate
    ensures src.TimeOf(f + 1) == (src.TimeOf(f) + 90000 / src.frameRate) % 0x1_0000_0000
    ensures src.frameRate * (90000 / src.frameRate) == 90000 <==> 90000 % src.frameRate == 0
    ensures 90000 % src.frameRate == 0 ==> src.TimeOf(f + src.frameRate) == (src.TimeOf(f) + 90000) % 0x1_0000_0000
  {
    TimeAfter(src, f, 1);
    TimeAfter(src, f, src.frameRate);
    assert 90000 == src.frameRate * (90000 / src.frameRate) + 90000 % src.frameRate;
  }

  // ---- packets that match ------------------------------------------------------------------------------

  lemma {:induction false} SlotsJoin(nals: seq<Nal>, i: nat, j: nat, k: nat)
    requires i <= j <= k <= |nals|
    ensures SlotsBetween(nals, i, k) == SlotsBetween(nals, i, j) + SlotsBetween(nals, j, k)
    decreases k
  {
    hide UnitSlots;
    if j < k {
      SlotsJoin(nals, i, j, k - 1);
      Associate(SlotsBetween(nals, i, j), SlotsBetween(nals, j, k - 1), UnitSlots(nals, k - 1));
    }
  }

  /** Slots start with the first part of a unit. */
  lemma {:induction false} StartOfUnit(nals: seq<Nal>, i: nat, j: nat)
    requires i <= j <= |nals|
    ensures var s := SlotsBetween(nals, i, j); s != [] ==> s[0].part == 0
    decreases j
  {
    if i < j {
      StartOfUnit(nals, i, j - 1);
    }
  }

  lemma {:induction false} MatchesBoth(a: seq<RtpPacket>, s: seq<Slot>, b: seq<RtpPacket>, t: seq<Slot>,
                                       src: Source, clocks: seq<nat -> nat>)
    requires Matches(a, s, src, clocks) && Matches(b, t, src, clocks) && (t != [] ==> t[0].part == 0)
    ensures Matches(a + b, s + t, src, clocks)
  {
    hide Shows;
    var ps, ss := a + b, s + t;
    forall n | 0 <= n < |ps|
      ensures Shows(ps[n], ss[n], src, clocks)
      ensures 0 < n && ss[n].part > 0 ==> ps[n].timestamp == ps[n - 1].timestamp
    {
      if n >= |a| {
        assert ps[n] == b[n - |a|] && ss[n] == t[n - |a|];
        if n > |a| {
          assert ps[n - 1] == b[n - 1 - |a|];
        }
      }
    }
  }

  lemma {:induction false} MoreClocks(packets: seq<RtpPacket>, slots: seq<Slot>, src: Source, clocks: seq<nat -> nat>, clock: nat -> nat)
    requires Matches(packets, slots, src, clocks)
    ensures Matches(packets, slots, src, clocks + [clock])
  {
    forall n | 0 <= n < |packets|
      ensures Shows(packets[n], slots[n], src, clocks + [clock])
    {
      assert Shows(packets[n], slots[n], src, clocks);
      StillShowed(packets[n].timestamp, clocks, clock);
    }
  }

  lemma {:induction false} StillShowed(t: nat, clocks: seq<nat -> nat>, clock: nat -> nat)
    ensures ClockShowed(t, clocks) ==> ClockShowed(t, clocks + [clock])
  {
    if ClockShowed(t, clocks) {
      var c, j :| 0 <= c < |clocks| && clocks[c](j) == t;
      assert (clocks + [clock])[c](j) == t;
    }
  }

  lemma {:induction false} NowShowed(clocks: seq<nat -> nat>, clock: nat -> nat, j: nat)
    ensures ClockShowed(clock(j), clocks + [clock])
  {
    assert (clocks + [clock])[|clocks|](j) == clock(j);
  }

  /** The packets `HandleFrame` makes of a unit. */
  lemma {:induction false} UnitMatches(src: Source, i: nat, clocks: seq<nat -> nat>, clock: nat -> nat, j: nat)
    requires i < |src.nals| && src.frameRate > 0 && (i == 0 || src.nals[i].kind != 9)
    ensures var t, nal := src.TimeOf(FrameNumber(src.nals, i)), src.nals[i];
            Matches(Packets(Payloads(nal.data), if t == 0 then clock(j) else t, if nal.kind == 5 then 1 else 2),
                    UnitSlots(src.nals, i), src, clocks + [clock])
  {
    hide FrameNumber, Source.TimeOf;
    NowShowed(clocks, clock, j);
    hide ClockShowed;
  }

  /** The first packets match the first slots. */
  lemma {:induction false} MatchesPrefix(a: seq<RtpPacket>, b: seq<RtpPacket>, slots: seq<Slot>, src: Source, clocks: seq<nat -> nat>)
    requires Matches(a + b, slots, src, clocks)
    ensures |a| <= |slots| && Matches(a, slots[..|a|], src, clocks)
  {
    hide Shows;
    var s := slots[..|a|];
    forall n | 0 <= n < |a|
      ensures Shows(a[n], s[n], src, clocks)
      ensures 0 < n && s[n].part > 0 ==> a[n].timestamp == a[n - 1].timestamp
    {
      assert (a + b)[n] == a[n] && s[n] == slots[n];
      if n > 0 {
        assert (a + b)[n - 1] == a[n - 1];
      }
    }
  }

  // ---- runs through the file ---------------------------------------------------------------------------

  lemma {:induction false} SlotsOfLapsGrow(nals: seq<Nal>, m: nat, n: nat)
    requires m <= n
    ensures SlotsOfLaps(nals, m) <= SlotsOfLaps(nals, n)
    decreases n
  {
    if m < n {
      SlotsOfLapsGrow(nals, m, n - 1);
    }
  }

  /** A part of a run begins the next run. */
  lemma {:induction false} PartOfSlots(nals: seq<Nal>, laps: nat, k: nat, more: nat)
    requires k <= |nals| && more > laps
    ensures SlotsOfLaps(nals, laps) + SlotsBetween(nals, 0, k) <= SlotsOfLaps(nals, more)
  {
    SlotsJoin(nals, 0, k, |nals|);
    SlotsOfLapsGrow(nals, laps + 1, more);
    hide SlotsBetween;
    Associate(SlotsOfLaps(nals, laps), SlotsBetween(nals, 0, k), SlotsBetween(nals, k, |nals|));
  }

  /** The first `n` of them are the first `n` slots of `n` runs. */
  lemma {:induction false} FirstSlots(nals: seq<Nal>, laps: nat, k: nat, n: nat)
    requires nals != [] && k <= |nals|
    requires n <= |SlotsOfLaps(nals, laps) + SlotsBetween(nals, 0, k)|
    ensures (SlotsOfLaps(nals, laps) + SlotsBetween(nals, 0, k))[..n] == SlotsOfLaps(nals, n)[..n]
  {
    var more := laps + n + 1;
    PartOfSlots(nals, laps, k, more);
    SlotsOfLapsGrow(nals, n, more);
    hide SlotsOfLaps, SlotsBetween;
    var all := SlotsOfLaps(nals, more);
    assert (SlotsOfLaps(nals, laps) + SlotsBetween(nals, 0, k))[..n] == all[..n];
    assert SlotsOfLaps(nals, n)[..n] == all[..n];
  }
}
