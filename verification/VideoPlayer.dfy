/**
  * From a raw H.264 file to RTP packets: the frame grouping of src/rtp/rawh264source.cpp, and
  * `FeedNextNALFrame` and `ProduceNextPacket` of src/rtsp/rtspsession.cpp with their packet queue.
  */
module VideoPlayer {
  import opened Bytes
  import opened AnnexB
  import opened H264Source
  import opened PlaySchedule

  // ---- frames ----------------------------------------------------------------------------------------

  /** Slices of a picture. */
  predicate IsVcl(kind: byte) {
    1 <= kind <= 5
  }

  const AUD: byte := 9

  /** Where the frame ends whose units before `j` already hold a slice if `seen`: at the next slice. */
  function FrameEnd(nals: seq<Nal>, j: nat, seen: bool): (e: nat)
    requires j <= |nals|
    ensures j <= e <= |nals|
    ensures e < |nals| ==> IsVcl(nals[e].kind)
    decreases |nals| - j
  {
    if j == |nals| || (IsVcl(nals[j].kind) && seen) then j
    else FrameEnd(nals, j + 1, seen || IsVcl(nals[j].kind))
  }

  lemma {:induction false} FrameEndStep(nals: seq<Nal>, j: nat, seen: bool)
    requires j <= |nals|
    ensures FrameEnd(nals, j, seen) ==
            if j == |nals| || (IsVcl(nals[j].kind) && seen) then j
            else FrameEnd(nals, j + 1, seen || IsVcl(nals[j].kind))
  {
  }

  /** Everything but access unit delimiters. */
  function WithoutAud(nals: seq<Nal>): seq<Nal> {
    if nals == [] then []
    else WithoutAud(nals[..|nals| - 1]) + (if nals[|nals| - 1].kind == AUD then [] else [nals[|nals| - 1]])
  }

  /** What is played of a list of units: delimiters are dropped, except at the very front. */
  function Played(nals: seq<Nal>): seq<Nal> {
    if nals == [] then [] else [nals[0]] + WithoutAud(nals[1..])
  }

  lemma {:induction false} WithoutAudAppend(a: seq<Nal>, b: seq<Nal>)
    ensures WithoutAud(a + b) == WithoutAud(a) + WithoutAud(b)
    decreases |b|
  {
    if b == [] {
      assert a + b == a;
    } else {
      assert (a + b)[..|a + b| - 1] == a + b[..|b| - 1];
      WithoutAudAppend(a, b[..|b| - 1]);
    }
  }

  lemma {:induction false} WithoutAudFirst(frame: seq<Nal>)
    requires frame != [] && frame[0].kind != AUD
    ensures WithoutAud(frame) == Played(frame)
  {
    var first := [frame[0]];
    assert frame == first + frame[1..];
    WithoutAudAppend(first, frame[1..]);
    assert first[..0] == [];
    assert WithoutAud(first) == first;
  }

  /** A further frame, which starts with a slice, adds its units to those played. */
  lemma {:induction false} PlayedAppend(a: seq<Nal>, frame: seq<Nal>)
    requires frame != [] && (a == [] || frame[0].kind != AUD)
    ensures Played(a + frame) == Played(a) + Played(frame)
  {
    if a == [] {
      assert a + frame == frame;
    } else {
      WithoutAudFirst(frame);
      hide WithoutAud;
      assert (a + frame)[1..] == a[1..] + frame;
      WithoutAudAppend(a[1..], frame);
      Associate([a[0]], WithoutAud(a[1..]), WithoutAud(frame));
    }
  }

  lemma {:induction false} PlayedNothing(nals: seq<Nal>, start: nat)
    requires start <= |nals|
    ensures Played(nals[start..start]) == []
  {
  }

  /** The units `nals[start..i]`, one at a time. */
  lemma {:induction false} PlayedStep(nals: seq<Nal>, start: nat, i: nat)
    requires start <= i < |nals|
    ensures Played(nals[start..i + 1]) ==
            Played(nals[start..i]) + (if start < i && nals[i].kind == AUD then [] else [nals[i]])
  {
    var a, n := nals[start..i], nals[i];
    assert nals[start..i + 1] == a + [n];
    if a == [] {
      assert a + [n] == [n] && [n][1..] == [];
    } else {
      assert (a + [n])[1..] == a[1..] + [n];
      assert (a[1..] + [n])[..|a[1..]|] == a[1..];
    }
  }

  // ---- packets ---------------------------------------------------------------------------------------

  function Datas(nals: seq<Nal>): (r: seq<seq<byte>>)
    ensures |r| == |nals|
  {
    seq(|nals|, i requires 0 <= i < |nals| => nals[i].data)
  }

  /** The packets' payloads that carry a list of NAL units. */
  function Carried(units: seq<seq<byte>>): (r: seq<seq<byte>>)
    ensures |r| >= |units|
  {
    if units == [] then [] else Carried(units[..|units| - 1]) + Payloads(units[|units| - 1])
  }

  const VIDEO_FRAME_I: nat := 1
  const VIDEO_FRAME_P: nat := 2

  /** The packets of the units of one frame; `clock(i)` is what the clock shows at unit `i`. */
  function FramePackets(units: seq<Nal>, timestamp: nat, clock: nat -> nat): seq<RtpPacket> {
    if units == [] then []
    else
      var last := units[|units| - 1];
      FramePackets(units[..|units| - 1], timestamp, clock)
      + Packets(Payloads(last.data), if timestamp == 0 then clock(|units| - 1) else timestamp,
                if last.kind == 5 then VIDEO_FRAME_I else VIDEO_FRAME_P)
  }

  /** The units played in `n` runs through the file. */
  function Laps(nals: seq<Nal>, n: nat): (r: seq<seq<byte>>)
    ensures nals != [] ==> |r| >= n
  {
    if n == 0 then [] else Laps(nals, n - 1) + Datas(Played(nals))
  }

  lemma {:induction false} CarriedAppend(a: seq<seq<byte>>, b: seq<seq<byte>>)
    ensures Carried(a + b) == Carried(a) + Carried(b)
    decreases |b|
  {
    if b == [] {
      assert a + b == a;
    } else {
      assert (a + b)[..|a + b| - 1] == a + b[..|b| - 1];
      CarriedAppend(a, b[..|b| - 1]);
      Associate(Carried(a), Carried(b[..|b| - 1]), Payloads(b[|b| - 1]));
    }
  }

  lemma {:induction false} PayloadsOfAppend(a: seq<RtpPacket>, b: seq<RtpPacket>)
    ensures PayloadsOf(a + b) == PayloadsOf(a) + PayloadsOf(b)
  {
  }

  lemma {:induction false} PayloadsOfPackets(payloads: seq<seq<byte>>, timestamp: nat, kind: nat)
    ensures PayloadsOf(Packets(payloads, timestamp, kind)) == payloads
  {
  }

  lemma {:induction false} FramePacketsCarry(units: seq<Nal>, timestamp: nat, clock: nat -> nat)
    ensures PayloadsOf(FramePackets(units, timestamp, clock)) == Carried(Datas(units))
  {
    if units != [] {
      var before, last := units[..|units| - 1], units[|units| - 1];
      FramePacketsCarry(before, timestamp, clock);
      var ts, kind := if timestamp == 0 then clock(|before|) else timestamp, if last.kind == 5 then VIDEO_FRAME_I else VIDEO_FRAME_P;
      PayloadsOfAppend(FramePackets(before, timestamp, clock), Packets(Payloads(last.data), ts, kind));
      PayloadsOfPackets(Payloads(last.data), ts, kind);
      assert Datas(units)[..|units| - 1] == Datas(before);
    }
  }

  /** What a further frame adds. */
  lemma {:induction false} FrameAdds(nals: seq<Nal>, start: nat, end: nat, before: seq<seq<byte>>)
    requires start < end <= |nals| && (start == 0 || IsVcl(nals[start].kind))
    ensures before + Datas(Played(nals[..start])) + Datas(Played(nals[start..end])) == before + Datas(Played(nals[..end]))
  {
    PlayedAppend(nals[..start], nals[start..end]);
    assert nals[..end] == nals[..start] + nals[start..end];
    hide Played;
    var a, b := Played(nals[..start]), Played(nals[start..end]);
    assert Datas(a + b) == Datas(a) + Datas(b);
    Associate(before, Datas(a), Datas(b));
  }

  // ---- the end-to-end result ---------------------------------------------------------------------------

  lemma {:induction false} LapsGrow(nals: seq<Nal>, m: nat, n: nat)
    requires m <= n
    ensures Laps(nals, m) <= Laps(nals, n)
    decreases n
  {
    if m < n {
      LapsGrow(nals, m, n - 1);
    }
  }

  lemma {:induction false} PartOfLap(nals: seq<Nal>, k: nat)
    requires k <= |nals|
    ensures Datas(Played(nals[..k])) <= Datas(Played(nals))
  {
    if k == 0 {
      assert nals[..0] == [];
    } else if k < |nals| {
      assert nals[1..] == nals[..k][1..] + nals[k..];
      WithoutAudAppend(nals[..k][1..], nals[k..]);
      hide WithoutAud;
      assert Played(nals[..k]) <= Played(nals);
    } else {
      assert nals[..k] == nals;
    }
  }

  lemma {:induction false} CarriedPrefix(a: seq<seq<byte>>, b: seq<seq<byte>>)
    requires a <= b
    ensures Carried(a) <= Carried(b)
  {
    CarriedAppend(a, b[|a|..]);
    assert b == a + b[|a|..];
  }

  /** Whatever part of a run has been carried is a prefix of what more runs carry. */
  lemma {:induction false} CarriedSoFar(nals: seq<Nal>, laps: nat, k: nat, more: nat)
    requires k <= |nals| && more > laps
    ensures Carried(Laps(nals, laps) + Datas(Played(nals[..k]))) <= Carried(Laps(nals, more))
  {
    PartOfLap(nals, k);
    LapsGrow(nals, laps + 1, more);
    hide Carried, Datas, Played;
    CarriedPrefix(Laps(nals, laps) + Datas(Played(nals[..k])), Laps(nals, more));
  }

  lemma {:induction false} BothPrefixes<T>(a: seq<T>, rest: seq<T>, b: seq<T>, all: seq<T>)
    requires a + rest <= all && b <= all && |a| <= |b|
    ensures a == b[..|a|]
  {
    assert a == all[..|a|] == b[..|a|];
  }

  /** Any `n` packets out of the player are the first `n` packets of `n` runs through the file. */
  lemma {:induction false} FirstPackets(nals: seq<Nal>, laps: nat, k: nat, n: nat, produced: seq<seq<byte>>, queued: seq<seq<byte>>)
    requires nals != [] && k <= |nals| && |produced| == n
    requires produced + queued == Carried(Laps(nals, laps) + Datas(Played(nals[..k])))
    ensures n <= |Carried(Laps(nals, n))|
    ensures produced == Carried(Laps(nals, n))[..n]
  {
    hide Carried, Laps, Datas, Played;
    var more := laps + n + 1;
    CarriedSoFar(nals, laps, k, more);
    LapsGrow(nals, n, more);
    CarriedPrefix(Laps(nals, n), Laps(nals, more));
    BothPrefixes(produced, queued, Carried(Laps(nals, n)), Carried(Laps(nals, more)));
  }

  /** What a receiver makes of the first packets is a prefix of what it makes of all of them. */
  lemma {:induction false} DepacketisePrefix(partial: Option<seq<byte>>, a: seq<seq<byte>>, b: seq<seq<byte>>)
    ensures Depacketise(partial, a) <= Depacketise(partial, a + b)
    decreases |a|
  {
    if a != [] {
      assert (a + b)[1..] == a[1..] + b;
      var p := a[0];
      if p == [] {
        DepacketisePrefix(partial, a[1..], b);
      } else if TypeOf(p) != 28 || |p| < 2 {
        DepacketisePrefix(None, a[1..], b);
      } else {
        var joined := if p[1] >= 128 then Some([RebuiltHeader(p)] + p[2..])
                      else if partial.Some? then Some(partial.value + p[2..])
                      else None;
        DepacketisePrefix(if (p[1] / 64) % 2 == 0 then joined else None, a[1..], b);
      }
    }
  }

  /** A receiver of the packets of `units` has exactly `units`. */
  lemma {:induction false} CarriedIsRecovered(units: seq<seq<byte>>, rest: seq<seq<byte>>)
    requires forall u :: u in units ==> Carriable(u)
    ensures Depacketise(None, Carried(units) + rest) == units + Depacketise(None, rest)
  {
    hide Depacketise, Payloads;
    if units == [] {
      assert Carried(units) + rest == rest;
    } else {
      var before, last := units[..|units| - 1], units[|units| - 1];
      Associate(Carried(before), Payloads(last), rest);
      CarriedIsRecovered(before, Payloads(last) + rest);
      PacketisationRoundTrip(last, rest);
      assert units == before + [last];
      Associate(before, [last], Depacketise(None, rest));
    }
  }

  lemma {:induction false} PlayedAreOfFile(nals: seq<Nal>, n: nat, u: seq<byte>)
    requires u in Laps(nals, n)
    ensures exists nal :: nal in nals && nal.data == u
    decreases n
  {
    if n > 0 {
      if u in Laps(nals, n - 1) {
        PlayedAreOfFile(nals, n - 1, u);
      } else {
        var i :| 0 <= i < |Played(nals)| && Played(nals)[i].data == u;
        if i > 0 {
          WithoutAudMember(nals[1..], Played(nals)[i]);
        }
        assert Played(nals)[i] in nals;
      }
    }
  }

  lemma {:induction false} WithoutAudMember(nals: seq<Nal>, nal: Nal)
    ensures nal in WithoutAud(nals) <==> nal in nals && nal.kind != AUD
  {
    if nals != [] {
      WithoutAudMember(nals[..|nals| - 1], nal);
      assert nals == nals[..|nals| - 1] + [nals[|nals| - 1]];
    }
  }

  /** A receiver of the first `n` packets has a prefix of the file's units, repeated without end. */
  lemma {:induction false} NothingLostOrReordered(nals: seq<Nal>, n: nat)
    requires nals != [] && forall nal :: nal in nals ==> Carriable(nal.data)
    ensures n <= |Carried(Laps(nals, n))|
    ensures Depacketise(None, Carried(Laps(nals, n))[..n]) <= Laps(nals, n)
  {
    var units := Laps(nals, n);
    forall u | u in units ensures Carriable(u) {
      PlayedAreOfFile(nals, n, u);
    }
    hide Laps, Carried, Depacketise;
    CarriedIsRecovered(units, []);
    var all := Carried(units);
    assert all + [] == all;
    assert Depacketise(None, []) == [] by {
      DepacketiseNothing();
    }
    DepacketisePrefix(None, all[..n], all[n..]);
    assert all == all[..n] + all[n..];
  }

  lemma {:induction false} DepacketiseNothing()
    ensures Depacketise(None, []) == []
  {
  }

  // ---- the player ---------------------------------------------------------------------------------------

  const UINT32: nat := 0x1_0000_0000

  /** Where the next frame starts: at the front again once the file has been played. */
  function NextStart(nals: seq<Nal>, nalIndex: nat): nat {
    if nalIndex == |nals| then 0 else nalIndex
  }

  lemma {:induction false} FramePacketsOfNone(timestamp: nat, clock: nat -> nat)
    ensures FramePackets([], timestamp, clock) == []
  {
  }

  lemma {:induction false} FramePacketsStep(units: seq<Nal>, i: nat, timestamp: nat, clock: nat -> nat)
    requires i < |units|
    ensures FramePackets(units[..i + 1], timestamp, clock) ==
            FramePackets(units[..i], timestamp, clock)
            + Packets(Payloads(units[i].data), if timestamp == 0 then clock(i) else timestamp,
                      if units[i].kind == 5 then VIDEO_FRAME_I else VIDEO_FRAME_P)
  {
    assert units[..i + 1][..i] == units[..i];
  }

  /** Having played the whole file is having started the next run. */
  lemma {:induction false} NewLap(nals: seq<Nal>, laps: nat)
    ensures Laps(nals, laps) + Datas(Played(nals[..|nals|])) == Laps(nals, laps + 1) + Datas(Played(nals[..0]))
  {
    assert nals[..|nals|] == nals;
    var all := Laps(nals, laps + 1);
    assert all + [] == all;
  }

  /** Queueing the packets of the frame `nals[start..end]` keeps the books straight. */
  lemma {:induction false} FrameQueued(nals: seq<Nal>, start: nat, end: nat, laps: seq<seq<byte>>,
                                       produced: seq<RtpPacket>, queue: seq<RtpPacket>, timestamp: nat, clock: nat -> nat)
    requires start < end <= |nals| && (start == 0 || IsVcl(nals[start].kind))
    requires PayloadsOf(produced) + PayloadsOf(queue) == Carried(laps + Datas(Played(nals[..start])))
    ensures var more := FramePackets(Played(nals[start..end]), timestamp, clock);
            && more != []
            && PayloadsOf(produced) + PayloadsOf(queue + more) == Carried(laps + Datas(Played(nals[..end])))
  {
    var frame := Played(nals[start..end]);
    var more := FramePackets(frame, timestamp, clock);
    assert frame != [];
    FrameAdds(nals, start, end, laps);
    hide Played, Datas, Carried, FramePackets;
    FramePacketsCarry(frame, timestamp, clock);
    PayloadsOfAppend(queue, more);
    CarriedAppend(laps + Datas(Played(nals[..start])), Datas(frame));
    Associate(PayloadsOf(produced), PayloadsOf(queue), PayloadsOf(more));
  }

  // ---- frames and their slots -----------------------------------------------------------------------

  /** From unit `j`, in frame `f`, to the end of that frame the number stays, and then it is the next one. */
  lemma {:induction false} FrameCount(nals: seq<Nal>, j: nat, seen: bool, f: nat)
    requires j <= |nals| && Slices(nals, j) == (if seen then f + 1 else 0) && (!seen ==> f == 0)
    ensures var e := FrameEnd(nals, j, seen);
            && (forall u :: j <= u < e ==> FrameNumber(nals, u) == f)
            && (e < |nals| ==> FrameNumber(nals, e) == f + 1)
    decreases |nals| - j
  {
    if j < |nals| && !(IsVcl(nals[j].kind) && seen) {
      FrameCount(nals, j + 1, seen || IsVcl(nals[j].kind), f);
    }
  }

  /** The frame read from `start` on holds the units with the number of unit `start`. */
  lemma {:induction false} FrameIsNumbered(nals: seq<Nal>, start: nat)
    requires start < |nals| && (start == 0 || IsVcl(nals[start].kind))
    ensures var e := FrameEnd(nals, start + 1, IsVcl(nals[start].kind));
            && (forall u :: start <= u < e ==> FrameNumber(nals, u) == FrameNumber(nals, start))
            && (e < |nals| ==> FrameNumber(nals, e) == FrameNumber(nals, start) + 1)
  {
    assert start == 0 ==> Slices(nals, 0) == 0;
    FrameCount(nals, start + 1, IsVcl(nals[start].kind), FrameNumber(nals, start));
  }

  /** The packets of the units of a frame are those of its slots. */
  lemma {:induction false} FrameMatches(src: Source, start: nat, i: nat, f: nat, clocks: seq<nat -> nat>, clock: nat -> nat)
    requires src.frameRate > 0 && start <= i <= |src.nals|
    requires start == 0 || start == i || src.nals[start].kind != 9
    requires forall u :: start <= u < i ==> FrameNumber(src.nals, u) == f
    ensures Matches(FramePackets(Played(src.nals[start..i]), src.TimeOf(f), clock),
                    SlotsBetween(src.nals, start, i), src, clocks + [clock])
    decreases i
  {
    hide FrameNumber, Source.TimeOf, Matches, Played, FramePackets;
    if start == i {
      NoUnits(src, start, src.TimeOf(f), clocks + [clock], clock);
    } else {
      FrameMatches(src, start, i - 1, f, clocks, clock);
      UnitScheduled(src, start, i - 1, f, clocks, clock);
    }
  }

  lemma {:induction false} NoUnits(src: Source, start: nat, t: nat, clocks: seq<nat -> nat>, clock: nat -> nat)
    requires start <= |src.nals|
    ensures Matches(FramePackets(Played(src.nals[start..start]), t, clock), SlotsBetween(src.nals, start, start), src, clocks)
  {
    hide Shows;
    PlayedNothing(src.nals, start);
    FramePacketsOfNone(t, clock);
  }

  /** One more unit of a frame. */
  lemma {:induction false} UnitScheduled(src: Source, start: nat, i: nat, f: nat, clocks: seq<nat -> nat>, clock: nat -> nat)
    requires src.frameRate > 0 && start <= i < |src.nals| && FrameNumber(src.nals, i) == f
    requires start == 0 || src.nals[start].kind != 9
    requires Matches(FramePackets(Played(src.nals[start..i]), src.TimeOf(f), clock),
                     SlotsBetween(src.nals, start, i), src, clocks + [clock])
    ensures Matches(FramePackets(Played(src.nals[start..i + 1]), src.TimeOf(f), clock),
                    SlotsBetween(src.nals, start, i + 1), src, clocks + [clock])
  {
    hide FrameNumber, Source.TimeOf, Matches, Played, FramePackets, Payloads, Packets;
    PlayedStep(src.nals, start, i);
    var nals, t, units := src.nals, src.TimeOf(f), Played(src.nals[start..i]);
    if start < i && nals[i].kind == AUD {
      assert UnitSlots(nals, i) == [];
      assert SlotsBetween(nals, start, i + 1) == SlotsBetween(nals, start, i);
      assert Played(nals[start..i + 1]) == units;
    } else {
      OneMoreUnit(units, nals[i], t, clock);
      UnitMatches(src, i, clocks, clock, |units|);
      MatchesBoth(FramePackets(units, t, clock), SlotsBetween(nals, start, i),
                  Packets(Payloads(nals[i].data), if t == 0 then clock(|units|) else t, if nals[i].kind == 5 then 1 else 2),
                  UnitSlots(nals, i), src, clocks + [clock]);
    }
  }

  lemma {:induction false} OneMoreUnit(units: seq<Nal>, nal: Nal, t: nat, clock: nat -> nat)
    ensures FramePackets(units + [nal], t, clock) ==
            FramePackets(units, t, clock)
            + Packets(Payloads(nal.data), if t == 0 then clock(|units|) else t, if nal.kind == 5 then 1 else 2)
  {
    assert (units + [nal])[..|units|] == units;
  }

  /** A further frame in the queue. */
  lemma {:induction false} FrameScheduled(src: Source, start: nat, end: nat, f: nat, laps: nat, packets: seq<RtpPacket>,
                                          more: seq<RtpPacket>, shown: seq<nat -> nat>, clock: nat -> nat)
    requires start <= end <= |src.nals|
    requires Matches(packets, SlotsOfLaps(src.nals, laps) + SlotsBetween(src.nals, 0, start), src, shown)
    requires Matches(more, SlotsBetween(src.nals, start, end), src, shown + [clock])
    ensures Matches(packets + more, SlotsOfLaps(src.nals, laps) + SlotsBetween(src.nals, 0, end), src, shown + [clock])
  {
    MoreClocks(packets, SlotsOfLaps(src.nals, laps) + SlotsBetween(src.nals, 0, start), src, shown, clock);
    StartOfUnit(src.nals, start, end);
    hide Matches;
    MatchesBoth(packets, SlotsOfLaps(src.nals, laps) + SlotsBetween(src.nals, 0, start),
                more, SlotsBetween(src.nals, start, end), src, shown + [clock]);
    SlotsJoin(src.nals, 0, start, end);
    hide SlotsBetween;
    Associate(SlotsOfLaps(src.nals, laps), SlotsBetween(src.nals, 0, start), SlotsBetween(src.nals, start, end));
  }

  /** The slots of a whole run are those before the first unit of the next. */
  lemma {:induction false} NewLapOfSlots(nals: seq<Nal>, laps: nat)
    ensures SlotsOfLaps(nals, laps) + SlotsBetween(nals, 0, |nals|) == SlotsOfLaps(nals, laps + 1) + SlotsBetween(nals, 0, 0)
  {
  }

  /** The next frame, with its packets, joins those made so far. */
  lemma {:induction false} FrameTimed(src: Source, start: nat, laps: nat, produced: seq<RtpPacket>, queue: seq<RtpPacket>,
                                      shown: seq<nat -> nat>, clock: nat -> nat)
    requires src.frameRate > 0 && start < |src.nals| && (start == 0 || IsVcl(src.nals[start].kind))
    requires Matches(produced + queue, SlotsOfLaps(src.nals, laps) + SlotsBetween(src.nals, 0, start), src, shown)
    ensures var e := FrameEnd(src.nals, start + 1, IsVcl(src.nals[start].kind));
            var more := FramePackets(Played(src.nals[start..e]), src.TimeOf(FrameNumber(src.nals, start)), clock);
            Matches(produced + (queue + more), SlotsOfLaps(src.nals, laps) + SlotsBetween(src.nals, 0, e), src, shown + [clock])
  {
    hide *;
    var e, f := FrameEnd(src.nals, start + 1, IsVcl(src.nals[start].kind)), FrameNumber(src.nals, start);
    FrameIsNumbered(src.nals, start);
    SliceIsNoDelimiter(src.nals[start]);
    FrameJoins(src, start, e, f, laps, produced, queue, shown, clock);
  }

  /** The index of the session counts the frames modulo 2^32, and the time is that of the frame all the same. */
  lemma {:induction false} IndexCounts(src: Source, start: nat)
    requires src.frameRate > 0 && start < |src.nals| && (start == 0 || IsVcl(src.nals[start].kind))
    ensures var e, f := FrameEnd(src.nals, start + 1, IsVcl(src.nals[start].kind)), FrameNumber(src.nals, start);
            && src.TimeOf(f % UINT32) == src.TimeOf(f)
            && (e < |src.nals| ==> FrameNumber(src.nals, e) % UINT32 == (f % UINT32 + 1) % UINT32)
  {
    hide FrameEnd, FrameNumber, IsVcl, Source.TimeOf;
    FrameIsNumbered(src.nals, start);
    NextIndex(FrameNumber(src.nals, start));
    TimeWraps(src, FrameNumber(src.nals, start));
  }

  lemma {:induction false} SliceIsNoDelimiter(nal: Nal)
    ensures IsVcl(nal.kind) ==> nal.kind != 9
  {
  }

  lemma {:induction false} NextIndex(f: nat)
    ensures (f + 1) % 0x1_0000_0000 == (f % 0x1_0000_0000 + 1) % 0x1_0000_0000
  {
    ModAdd(f, 1);
  }

  lemma {:induction false} FrameJoins(src: Source, start: nat, e: nat, f: nat, laps: nat, produced: seq<RtpPacket>,
                                      queue: seq<RtpPacket>, shown: seq<nat -> nat>, clock: nat -> nat)
    requires src.frameRate > 0 && start < e <= |src.nals| && (start == 0 || src.nals[start].kind != 9)
    requires forall u :: start <= u < e ==> FrameNumber(src.nals, u) == f
    requires Matches(produced + queue, SlotsOfLaps(src.nals, laps) + SlotsBetween(src.nals, 0, start), src, shown)
    ensures var more := FramePackets(Played(src.nals[start..e]), src.TimeOf(f), clock);
            Matches(produced + (queue + more), SlotsOfLaps(src.nals, laps) + SlotsBetween(src.nals, 0, e), src, shown + [clock])
  {
    hide *;
    FrameMatches(src, start, e, f, shown, clock);
    var more := FramePackets(Played(src.nals[start..e]), src.TimeOf(f), clock);
    FrameScheduled(src, start, e, f, laps, produced + queue, more, shown, clock);
    Associate(produced, queue, more);
  }

  class Player {
    const nals: seq<Nal>
    const frameRate: nat
    const rtpTimestamp: nat
    // the file reader
    var nalIndex: nat
    var eofReached: bool
    // the session
    var queue: seq<RtpPacket>
    var frameIndex: nat
    /** How often the file has been played to its end, and all packets handed out. */
    ghost var laps: nat
    ghost var produced: seq<RtpPacket>
    /** The clocks the caller has provided. */
    ghost var shown: seq<nat -> nat>

    /** What the packets are made from. */
    ghost function Material(): Source {
      Source(nals, frameRate, rtpTimestamp)
    }

    /** The slots of all packets made so far. */
    ghost function Slots(): seq<Slot>
      reads this
      requires nalIndex <= |nals|
    {
      SlotsOfLaps(nals, laps) + SlotsBetween(nals, 0, nalIndex)
    }

    ghost function Fed(): seq<seq<byte>>
      reads this
      requires nalIndex <= |nals|
    {
      Laps(nals, laps) + Datas(Played(nals[..nalIndex]))
    }

    ghost predicate Valid()
      reads this
    {
      && nals != [] && frameRate > 0
      && nalIndex <= |nals|
      && (0 < nalIndex < |nals| ==> IsVcl(nals[nalIndex].kind))
      && !eofReached
      && PayloadsOf(produced) + PayloadsOf(queue) == Carried(Fed())
      && (nalIndex < |nals| ==> frameIndex == FrameNumber(nals, nalIndex) % UINT32)
      && Matches(produced + queue, Slots(), Material(), shown)
    }

    constructor (nals: seq<Nal>, frameRate: nat, rtpTimestamp: nat)
      requires nals != [] && frameRate > 0
      ensures Valid() && this.nals == nals && this.frameRate == frameRate && this.rtpTimestamp == rtpTimestamp
      ensures produced == [] && queue == [] && shown == []
    {
      this.nals, this.frameRate, this.rtpTimestamp := nals, frameRate, rtpTimestamp;
      nalIndex, eofReached, queue, frameIndex := 0, false, [], 0;
      laps, produced, shown := 0, [], [];
      new;
      assert nals[..0] == [];
      RunStarts(Material());
    }

    /** `ReadNextFrame`: the units of the next frame, or nothing at the end of the file. */
    method ReadNextFrame() returns (frame: Option<seq<Nal>>)
      requires nalIndex <= |nals|
      modifies this`nalIndex, this`eofReached
      ensures if old(eofReached) || old(nalIndex) == |nals| then frame == None && eofReached && nalIndex == old(nalIndex)
              else
                var e := FrameEnd(nals, old(nalIndex) + 1, IsVcl(nals[old(nalIndex)].kind));
                nalIndex == e && !eofReached && frame == Some(Played(nals[old(nalIndex)..e]))
    {
      hide Played, FrameEnd;
      if eofReached || nalIndex >= |nals| {
        eofReached := true;
        return None;
      }
      ghost var start := nalIndex;
      ghost var end := FrameEnd(nals, start + 1, IsVcl(nals[start].kind));
      var units: seq<Nal> := [];
      var firstVclType: byte := 0;
      PlayedNothing(nals, start);
      while nalIndex < |nals|
        invariant start <= nalIndex <= |nals| && !eofReached
        invariant units == [] <==> nalIndex == start
        invariant units == Played(nals[start..nalIndex])
        invariant nalIndex == start ==> firstVclType == 0
        invariant nalIndex > start ==> FrameEnd(nals, nalIndex, firstVclType != 0) == end
      {
        var nal := nals[nalIndex];
        var isVcl := 1 <= nal.kind <= 5;
        PlayedStep(nals, start, nalIndex);
        FrameEndStep(nals, nalIndex, firstVclType != 0);
        if units == [] {
          units := units + [nal];
          if isVcl {
            firstVclType := nal.kind;
          }
          nalIndex := nalIndex + 1;
          continue;
        }
        if isVcl && firstVclType != 0 {
          break;
        }
        if nal.kind == AUD {
          nalIndex := nalIndex + 1;
          continue;
        }
        if isVcl {
          firstVclType := nal.kind;
        }
        units := units + [nal];
        nalIndex := nalIndex + 1;
      }
      FrameEndStep(nals, nalIndex, firstVclType != 0);
      assert nalIndex == end;
      return Some(units);
    }

    method Reset()
      modifies this`nalIndex, this`eofReached
      ensures nalIndex == 0 && !eofReached
    {
      nalIndex, eofReached := 0, false;
    }

    /** The loop of `FeedNextNALFrame`: the packets of a frame join the queue, which takes all it is offered. */
    method QueueFrame(units: seq<Nal>, ts: nat, clock: nat -> nat)
      modifies this`queue
      ensures queue == old(queue) + FramePackets(units, ts, clock)
    {
      hide FramePackets, Packets, Payloads;
      ghost var before := queue;
      FramePacketsOfNone(ts, clock);
      for i := 0 to |units|
        invariant queue == before + FramePackets(units[..i], ts, clock)
      {
        var kind := if units[i].kind == 5 then VIDEO_FRAME_I else VIDEO_FRAME_P;
        var sent, _ := HandleFrame(units[i].data, ts, kind, clock(i), |units[i].data| + 1);
        FramePacketsStep(units, i, ts, clock);
        queue := queue + sent;
      }
      assert units[..|units|] == units;
    }

    /** `FeedNextNALFrame`: the packets of the next frame join the queue; at the end of the file the
      * player starts over. */
    method FeedNextNALFrame(clock: nat -> nat)
      requires Valid()
      modifies this
      ensures Valid() && produced == old(produced) && shown == old(shown) + [clock]
      ensures var wrapped := old(nalIndex) == |nals|;
              var start := NextStart(nals, old(nalIndex));
              var index := if wrapped then 0 else old(frameIndex);
              && nalIndex == FrameEnd(nals, start + 1, IsVcl(nals[start].kind))
              && laps == old(laps) + (if wrapped then 1 else 0)
              && frameIndex == (index + 1) % UINT32
              && queue == old(queue) + FramePackets(Played(nals[start..nalIndex]), Timestamp(index), clock)
      ensures queue != []
    {
      hide Laps, Carried, Datas, Played, FramePackets, FrameEnd, FrameNumber, Matches, SlotsOfLaps, SlotsBetween;
      ghost var start := NextStart(nals, nalIndex);
      ghost var fed := Fed();
      var frame := ReadNextFrame();
      if frame.None? {
        frameIndex := 0;
        Reset();
        NewLap(nals, laps);
        NewLapOfSlots(nals, laps);
        RunStarts(Material());
        laps := laps + 1;
        frame := ReadNextFrame();
      }
      assert frame == Some(Played(nals[start..nalIndex]));
      var units := frame.value;
      var ts := Timestamp(frameIndex);
      ghost var before := queue;
      QueueFrame(units, ts, clock);
      frameIndex := (frameIndex + 1) % UINT32;
      FrameQueued(nals, start, nalIndex, Laps(nals, laps), produced, before, ts, clock);
      IndexCounts(Material(), start);
      FrameTimed(Material(), start, laps, produced, before, shown, clock);
      shown := shown + [clock];
    }

    /** The timestamp of the frame with the given index; 32-bit. */
    function Timestamp(index: nat): nat
      requires frameRate > 0
    {
      (rtpTimestamp + index * (90000 / frameRate)) % UINT32
    }

    /** `ProduceNextPacket`: the packet at the front of the queue, which is filled first if it is empty. */
    method ProduceNextPacket(clock: nat -> nat) returns (packet: Option<RtpPacket>)
      requires Valid()
      modifies this
      ensures Valid() && packet.Some? && shown == old(shown) + [clock]
      ensures produced == old(produced) + [packet.value]
      ensures old(queue) != [] ==>
                packet.value == old(queue)[0] && queue == old(queue)[1..] && frameIndex == old(frameIndex) && nalIndex == old(nalIndex)
    {
      hide Carried, Laps, Datas, Played, FramePackets, FrameNumber, Matches, SlotsOfLaps, SlotsBetween;
      if queue == [] {
        FeedNextNALFrame(clock);
      } else {
        MoreClocks(produced + queue, Slots(), Material(), shown, clock);
        shown := shown + [clock];
      }
      packet := Some(queue[0]);
      Popped(produced, queue);
      queue := queue[1..];
      produced := produced + [packet.value];
    }
  }

  lemma {:induction false} Popped(produced: seq<RtpPacket>, queue: seq<RtpPacket>)
    requires queue != []
    ensures PayloadsOf(produced) + PayloadsOf(queue) == PayloadsOf(produced + [queue[0]]) + PayloadsOf(queue[1..])
    ensures produced + queue == produced + [queue[0]] + queue[1..]
  {
  }

  /** End to end: a file is opened and `|clocks|` packets are taken from the player. They are the packets of
    * the first slots of the file's units, played over and over; a receiver recovers a prefix of those units. */
  method Play(file: seq<byte>, frameRate: nat, rtpTimestamp: nat, clocks: seq<nat -> nat>) returns (packets: seq<RtpPacket>)
    requires Units(file) != [] && frameRate > 0
    ensures |packets| == |clocks| <= |Carried(Laps(Units(file), |clocks|))|
    ensures PayloadsOf(packets) == Carried(Laps(Units(file), |clocks|))[..|clocks|]
    ensures (forall nal :: nal in Units(file) ==> Carriable(nal.data)) ==>
              Depacketise(None, PayloadsOf(packets)) <= Laps(Units(file), |clocks|)
    ensures |clocks| <= |SlotsOfLaps(Units(file), |clocks|)|
    ensures Matches(packets, SlotsOfLaps(Units(file), |clocks|)[..|clocks|], Source(Units(file), frameRate, rtpTimestamp), clocks)
  {
    hide Carried, Laps, Depacketise, Units, Matches, SlotsOfLaps, SlotsBetween, Datas, Played, FrameNumber, IsVcl, Carriable, PayloadsOf;
    var nals := ExtractNALUnits(file);
    var player := new Player(nals, frameRate, rtpTimestamp);
    packets := [];
    for i := 0 to |clocks|
      invariant player.Valid() && player.nals == nals && fresh(player)
      invariant player.frameRate == frameRate && player.rtpTimestamp == rtpTimestamp
      invariant player.produced == packets && |packets| == i
      invariant player.shown == clocks[..i]
    {
      var packet := player.ProduceNextPacket(clocks[i]);
      packets := packets + [packet.value];
    }
    assert clocks[..|clocks|] == clocks;
    FirstPackets(nals, player.laps, player.nalIndex, |clocks|, PayloadsOf(packets), PayloadsOf(player.queue));
    if forall nal :: nal in nals ==> Carriable(nal.data) {
      NothingLostOrReordered(nals, |clocks|);
    }
    MatchesPrefix(packets, player.queue, player.Slots(), player.Material(), clocks);
    FirstSlots(nals, player.laps, player.nalIndex, |clocks|);
  }
}
