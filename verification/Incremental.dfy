/**
  * Every receive path of the repository has one shape: append the bytes just read to a buffer,
  * then take complete units off its front until what is left is too short. This module defines
  * that loop once, as a function of its single step, and proves when the way the stream was cut
  * into reads cannot be observed.
  */
module Incremental {
  import opened Bytes

  /** What one look at the front of the buffer decides. */
  datatype Step<S, E> =
    | More                                      // not enough bytes yet
    | Took(next: S, count: nat, out: seq<E>)    // `count` bytes consumed
    | Halt(last: S, final: seq<E>)              // the connection is given up; nothing is consumed

  /** The state of a receive path between two reads. */
  datatype Reader<S, E> = Reader(state: S, rest: seq<byte>, out: seq<E>, halted: bool)

  type Stepper<!S, !E> = (S, seq<byte>) -> Step<S, E>

  /** Take units off the front of `buf` until the step function asks for more or gives up. */
  ghost function Drain<S, E>(step: Stepper<S, E>, s: S, buf: seq<byte>): (r: Reader<S, E>)
    decreases |buf|
  {
    match step(s, buf)
    case More => Reader(s, buf, [], false)
    case Halt(t, es) => Reader(t, buf, es, true)
    case Took(t, n, es) =>
      if 0 < n <= |buf| then
        var r := Drain(step, t, buf[n..]);
        r.(out := es + r.out)
      else Reader(s, buf, [], false)
  }

  /** One read: nothing once the path has halted, otherwise append and drain. */
  ghost function Feed<S, E>(step: Stepper<S, E>, r: Reader<S, E>, chunk: seq<byte>): Reader<S, E> {
    if r.halted then r.(rest := r.rest + chunk)
    else
      var d := Drain(step, r.state, r.rest + chunk);
      d.(out := r.out + d.out)
  }

  ghost function FeedAll<S, E>(step: Stepper<S, E>, r: Reader<S, E>, chunks: seq<seq<byte>>): Reader<S, E>
    decreases |chunks|
  {
    if chunks == [] then r else FeedAll(step, Feed(step, r, chunks[0]), chunks[1..])
  }

  ghost function Start<S, E>(s: S): Reader<S, E> {
    Reader(s, [], [], false)
  }

  /** A decision, once taken, is not changed by bytes that arrive later. */
  ghost predicate Stable<S(!new), E(!new)>(step: Stepper<S, E>) {
    forall s: S, a: seq<byte>, b: seq<byte> {:trigger step(s, a + b)} :: !step(s, a).More? ==> step(s, a + b) == step(s, a)
  }

  lemma {:induction false} StableAt<S(!new), E(!new)>(step: Stepper<S, E>, s: S, a: seq<byte>, b: seq<byte>)
    requires Stable(step)
    ensures !step(s, a).More? ==> step(s, a + b) == step(s, a)
  {
    var _ := step(s, a + b);
  }

  /** Draining a longer buffer is draining a prefix of it and carrying on with the leftover. */
  lemma {:induction false} DrainSplit<S(!new), E(!new)>(step: Stepper<S, E>, s: S, a: seq<byte>, b: seq<byte>)
    requires Stable(step)
    ensures Drain(step, s, a + b) == Feed(step, Drain(step, s, a), b)
    decreases |a|
  {
    StableAt(step, s, a, b);
    match step(s, a)
    case More =>
    case Halt(t, es) =>
    case Took(t, n, es) =>
      if 0 < n <= |a| {
        var d := Drain(step, t, a[n..]);
        DrainSplit(step, t, a[n..], b);
        calc {
          Drain(step, s, a + b);
          { assert (a + b)[n..] == a[n..] + b; }
          var r := Drain(step, t, a[n..] + b); r.(out := es + r.out);
          var r := Feed(step, d, b); r.(out := es + r.out);
          { if !d.halted { var e := Drain(step, d.state, d.rest + b); assert es + (d.out + e.out) == (es + d.out) + e.out; } }
          Feed(step, d.(out := es + d.out), b);
          Feed(step, Drain(step, s, a), b);
        }
      }
  }

  lemma {:induction false} FeedTwice<S(!new), E(!new)>(step: Stepper<S, E>, r: Reader<S, E>, a: seq<byte>, b: seq<byte>)
    requires Stable(step)
    ensures Feed(step, Feed(step, r, a), b) == Feed(step, r, a + b)
  {
    assert r.rest + (a + b) == (r.rest + a) + b;
    if !r.halted {
      DrainSplit(step, r.state, r.rest + a, b);
      var d := Drain(step, r.state, r.rest + a);
      if !d.halted {
        var e := Drain(step, d.state, d.rest + b);
        assert r.out + (d.out + e.out) == (r.out + d.out) + e.out;
      }
    }
  }

  /** Reading a stream piece by piece is reading it in one go. */
  lemma {:induction false} FeedAllIsFeedFlat<S(!new), E(!new)>(step: Stepper<S, E>, r: Reader<S, E>, chunks: seq<seq<byte>>)
    requires Stable(step)
    requires !r.halted ==> Drain(step, r.state, r.rest) == r.(out := [])
    ensures FeedAll(step, r, chunks) == Feed(step, r, Flat(chunks))
    decreases |chunks|
  {
    if chunks == [] {
      assert r.rest + [] == r.rest;
      assert r.out + [] == r.out;
    } else {
      var r' := Feed(step, r, chunks[0]);
      FeedTwice(step, r, chunks[0], []);
      assert chunks[0] + [] == chunks[0];
      if !r'.halted {
        assert r'.rest + [] == r'.rest;
        var d := Drain(step, r'.state, r'.rest);
        assert r'.out == r'.out + d.out;
      }
      FeedAllIsFeedFlat(step, r', chunks[1..]);
      FeedTwice(step, r, chunks[0], Flat(chunks[1..]));
    }
  }

  /** Two ways of cutting one stream into reads end in the same state with the same output. */
  lemma {:induction false} ChunkingUnobservable<S(!new), E(!new)>(step: Stepper<S, E>, s: S, xs: seq<seq<byte>>, ys: seq<seq<byte>>)
    requires Stable(step)
    requires step(s, []).More?
    requires Flat(xs) == Flat(ys)
    ensures FeedAll(step, Start(s), xs) == FeedAll(step, Start(s), ys)
    ensures FeedAll(step, Start(s), xs) == Drain(step, s, Flat(xs))
  {
    FeedAllIsFeedFlat(step, Start(s), xs);
    FeedAllIsFeedFlat(step, Start(s), ys);
    assert [] + Flat(xs) == Flat(xs);
    var d := Drain(step, s, Flat(xs));
    assert [] + d.out == d.out;
  }

  // ---- paths that throw their buffer away ----------------------------------------------------------------

  /** The loop of a path that does not give the connection up: when its step function halts, it makes of
    * the whole buffer what `flush` says, empties it and goes on with the next read. */
  ghost function Pass<S, E>(step: Stepper<S, E>, flush: seq<byte> -> seq<E>, s: S, buf: seq<byte>): Reader<S, E> {
    var d := Drain(step, s, buf);
    if d.halted then Reader(d.state, [], d.out + flush(d.rest), false) else d
  }

  ghost function Passes<S, E>(step: Stepper<S, E>, flush: seq<byte> -> seq<E>, s: S, buf: seq<byte>, chunks: seq<seq<byte>>): Reader<S, E>
    decreases |chunks|
  {
    if chunks == [] then Reader(s, buf, [], false)
    else
      var p := Pass(step, flush, s, buf + chunks[0]);
      var r := Passes(step, flush, p.state, p.rest, chunks[1..]);
      r.(out := p.out + r.out)
  }

  /** What a drain leaves behind is drained. */
  lemma {:induction false} DrainedAfter<S(!new), E(!new)>(step: Stepper<S, E>, s: S, a: seq<byte>)
    requires Stable(step)
    ensures var d := Drain(step, s, a); !d.halted ==> Drain(step, d.state, d.rest) == Reader(d.state, d.rest, [], false)
  {
    var d := Drain(step, s, a);
    DrainSplit(step, s, a, []);
    assert a + [] == a && d.rest + [] == d.rest;
    if !d.halted {
      assert d.out == d.out + Drain(step, d.state, d.rest).out;
    }
  }

  /** However the stream is cut, everything before the first bad unit comes out first; if there is no bad
    * unit, the outcome is that of reading the stream in one go. */
  lemma {:induction false} PassesFollowStream<S(!new), E(!new)>(step: Stepper<S, E>, flush: seq<byte> -> seq<E>, s: S, buf: seq<byte>, chunks: seq<seq<byte>>)
    requires Stable(step)
    requires Drain(step, s, buf) == Reader(s, buf, [], false)
    ensures Drain(step, s, buf + Flat(chunks)).out <= Passes(step, flush, s, buf, chunks).out
    ensures !Drain(step, s, buf + Flat(chunks)).halted ==>
              Passes(step, flush, s, buf, chunks) == Drain(step, s, buf + Flat(chunks))
    decreases |chunks|
  {
    if chunks == [] {
      assert buf + [] == buf;
    } else {
      var e := Drain(step, s, buf + chunks[0]);
      DrainSplit(step, s, buf + chunks[0], Flat(chunks[1..]));
      Associate(buf, chunks[0], Flat(chunks[1..]));
      if !e.halted {
        DrainedAfter(step, s, buf + chunks[0]);
        PassesFollowStream(step, flush, e.state, e.rest, chunks[1..]);
      }
    }
  }

  // ---- units on the wire -----------------------------------------------------------------------------------

  /** The bytes of a list of units. */
  ghost function Wire<E>(wire: E -> seq<byte>, es: seq<E>): seq<byte> {
    if es == [] then [] else wire(es[0]) + Wire(wire, es[1..])
  }

  lemma {:induction false} WireAppend<E>(wire: E -> seq<byte>, a: seq<E>, b: seq<E>)
    ensures Wire(wire, a + b) == Wire(wire, a) + Wire(wire, b)
  {
    if a == [] {
      assert a + b == b;
    } else {
      assert (a + b)[1..] == a[1..] + b;
      WireAppend(wire, a[1..], b);
      Associate(wire(a[0]), Wire(wire, a[1..]), Wire(wire, b));
    }
  }

  /** `e` is read off the front of any buffer that starts with its bytes. */
  ghost predicate ReadsBack<S, E>(step: Stepper<S, E>, wire: E -> seq<byte>, s: S, e: E) {
    wire(e) != [] && forall rest :: step(s, wire(e) + rest) == Took(s, |wire(e)|, [e])
  }

  lemma {:induction false} UnitsReadBack<S, E>(step: Stepper<S, E>, wire: E -> seq<byte>, s: S, es: seq<E>)
    requires step(s, []).More?
    requires forall e :: e in es ==> ReadsBack(step, wire, s, e)
    ensures Drain(step, s, Wire(wire, es)) == Reader(s, [], es, false)
  {
    if es != [] {
      var rest := Wire(wire, es[1..]);
      assert ReadsBack(step, wire, s, es[0]);
      assert (wire(es[0]) + rest)[|wire(es[0])|..] == rest;
      UnitsReadBack(step, wire, s, es[1..]);
      assert [es[0]] + es[1..] == es;
    }
  }

  /** Each unit taken is the bytes consumed for it. */
  ghost predicate Conserving<S(!new), E>(step: Stepper<S, E>, wire: E -> seq<byte>) {
    forall s: S, buf: seq<byte> {:trigger step(s, buf)} ::
      var r := step(s, buf);
      r.Took? ==> r.count <= |buf| && Wire(wire, r.out) == buf[..r.count]
  }

  /** No byte is lost or made up: the units and the leftover are the stream. */
  lemma {:induction false} StreamConserved<S(!new), E>(step: Stepper<S, E>, wire: E -> seq<byte>, s: S, buf: seq<byte>)
    requires Conserving(step, wire)
    requires forall t: S, b: seq<byte> {:trigger step(t, b)} :: step(t, b).Halt? ==> step(t, b).final == []
    ensures var d := Drain(step, s, buf); Wire(wire, d.out) + d.rest == buf
    decreases |buf|
  {
    match step(s, buf)
    case More =>
    case Halt(_, _) =>
    case Took(t, n, es) =>
      if 0 < n {
        StreamConserved(step, wire, t, buf[n..]);
        var d := Drain(step, t, buf[n..]);
        WireAppend(wire, es, d.out);
        Associate(Wire(wire, es), Wire(wire, d.out), d.rest);
        assert buf == buf[..n] + buf[n..];
      }
  }
}
