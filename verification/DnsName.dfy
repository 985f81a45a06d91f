/**
  * Domain names as src/mdns/dns_message.cpp writes and reads them (sections 3.1 and 4.1.4 of RFC 1035): labels with
  * a length byte, ended by a zero byte or by a pointer to another place in the message.
  */
module DnsName {
  import opened Bytes

  const DOT: byte := 46

  datatype Result<+T> =
    | Ok(value: T, next: nat)   // and where reading goes on
    | Throws                    // std::runtime_error
    | Hangs                     // the recursion through pointers never ends

  // ---- labels ------------------------------------------------------------------------------------------

  /** The labels with dots between them. */
  function Join(labels: seq<seq<byte>>): seq<byte> {
    if labels == [] then []
    else if |labels| == 1 then labels[0]
    else labels[0] + [DOT] + Join(labels[1..])
  }

  /** The labels with their length bytes. */
  function Wire(labels: seq<seq<byte>>): seq<byte> {
    if labels == [] then [] else [|labels[0]| % 256] + labels[0] + Wire(labels[1..])
  }

  /** The parts between dots; nothing after a dot at the end. */
  function Split(s: seq<byte>): seq<seq<byte>> {
    if s == [] then []
    else
      var d := IndexOf(s, DOT);
      if d == |s| then [s[..d]] else [s[..d]] + Split(s[d + 1..])
  }

  /** A name without the dot at its end. */
  function Trimmed(name: seq<byte>): seq<byte> {
    if name != [] && name[|name| - 1] == DOT then name[..|name| - 1] else name
  }

  // ---- writing -----------------------------------------------------------------------------------------

  /** `EncodeName`; None where it throws. */
  function Encoded(name: seq<byte>): Option<seq<byte>> {
    if Short(Split(Trimmed(name))) then Some(Wire(Split(Trimmed(name))) + [0]) else None
  }

  method EncodeName(name: seq<byte>) returns (result: Option<seq<byte>>)
    ensures result == Encoded(name)
  {
    hide Written, SplitInto, Encoded, Trimmed, Split, Wire, IndexOf, AfterPart;
    if name == [] || name == [DOT] {
      NothingEncoded(name);
      return Some([0]);
    }
    var sv := name;
    TrimmedIs(name);
    if sv[|sv| - 1] == DOT {
      sv := sv[..|sv| - 1];
    }
    StartEncoding(sv);
    var bytes: seq<byte> := [];
    var start := 0;
    ghost var done: seq<seq<byte>>, rest := [], sv;
    while start < |sv|
      invariant Encoding(sv, start, bytes, done, rest)
      decreases |sv| - start
    {
      var dot := start + IndexOf(sv[start..], DOT);
      var labelLen := dot - start;
      if labelLen > 63 {
        SplitStep(sv, start, dot, done, rest);
        TooLong(name, sv[start..dot]);
        return None;
      }
      EncodingStep(sv, start, dot, bytes, done, rest);
      bytes := bytes + [labelLen] + sv[start..dot];
      done := done + [sv[start..dot]];
      rest := AfterPart(rest);
      start := dot + 1;
    }
    EncodingEnds(name, sv, start, bytes, done, rest);
    return Some(bytes + [0]);
  }

  /** `done` has been written, `rest` is to come. */
  ghost predicate Encoding(sv: seq<byte>, start: nat, bytes: seq<byte>, done: seq<seq<byte>>, rest: seq<byte>) {
    RestIs(sv, start, rest) && Written(bytes, done) && SplitInto(done, rest, sv)
  }

  predicate RestIs(sv: seq<byte>, start: nat, rest: seq<byte>) {
    rest == if start < |sv| then sv[start..] else []
  }

  predicate Written(bytes: seq<byte>, done: seq<seq<byte>>) {
    bytes == Wire(done) && Short(done)
  }

  predicate SplitInto(done: seq<seq<byte>>, rest: seq<byte>, sv: seq<byte>) {
    done + Split(rest) == Split(sv)
  }

  predicate Short(labels: seq<seq<byte>>) {
    forall l :: l in labels ==> |l| <= 63
  }

  lemma {:induction false} StartEncoding(sv: seq<byte>)
    ensures Encoding(sv, 0, [], [], sv)
  {
  }

  lemma {:induction false} EncodingEnds(name: seq<byte>, sv: seq<byte>, start: nat, bytes: seq<byte>, done: seq<seq<byte>>, rest: seq<byte>)
    requires Encoding(sv, start, bytes, done, rest) && start >= |sv| && sv == Trimmed(name)
    ensures Encoded(name) == Some(bytes + [0])
  {
    assert done == Split(sv);
  }

  lemma {:induction false} TooLong(name: seq<byte>, part: seq<byte>)
    requires part in Split(Trimmed(name)) && |part| > 63
    ensures Encoded(name) == None
  {
  }

  lemma {:induction false} EncodingStep(sv: seq<byte>, start: nat, dot: nat, bytes: seq<byte>, done: seq<seq<byte>>, rest: seq<byte>)
    requires Encoding(sv, start, bytes, done, rest) && start < |sv| && dot == start + IndexOf(sv[start..], DOT)
    requires dot - start <= 63
    ensures Encoding(sv, dot + 1, bytes + [dot - start] + sv[start..dot], done + [sv[start..dot]], AfterPart(rest))
  {
    var part := sv[start..dot];
    hide Written, SplitInto, IndexOf, AfterPart;
    WrittenStep(bytes, done, part);
    SplitStep(sv, start, dot, done, rest);
    FirstPart(sv, start);
  }

  lemma {:induction false} WrittenStep(bytes: seq<byte>, done: seq<seq<byte>>, part: seq<byte>)
    requires Written(bytes, done) && |part| <= 63
    ensures Written(bytes + [|part|] + part, done + [part])
  {
    WireSnoc(done, part);
    ShortSnoc(done, part);
    hide Wire, Short;
  }

  lemma {:induction false} SplitStep(sv: seq<byte>, start: nat, dot: nat, done: seq<seq<byte>>, rest: seq<byte>)
    requires RestIs(sv, start, rest) && SplitInto(done, rest, sv) && start < |sv| && dot == start + IndexOf(sv[start..], DOT)
    ensures SplitInto(done + [sv[start..dot]], AfterPart(rest), sv) && sv[start..dot] in Split(sv)
  {
    hide Split, IndexOf, AfterPart;
    assert rest == sv[start..];
    FirstPart(sv, start);
    PartMoves(done, sv[start..dot], Split(AfterPart(rest)), Split(sv));
  }

  lemma {:induction false} PartMoves<T>(done: seq<T>, part: T, after: seq<T>, all: seq<T>)
    requires done + ([part] + after) == all
    ensures done + [part] + after == all && part in all
  {
    Associate(done, [part], after);
    Middle(done, part, after);
  }

  lemma {:induction false} Middle<T>(a: seq<T>, x: T, b: seq<T>)
    ensures x in a + [x] + b
  {
    assert (a + [x] + b)[|a|] == x;
  }

  lemma {:induction false} ShortSnoc(labels: seq<seq<byte>>, l: seq<byte>)
    requires Short(labels) && |l| <= 63
    ensures Short(labels + [l])
  {
  }

  lemma {:induction false} TrimmedIs(name: seq<byte>)
    ensures Trimmed(name) == if name != [] && name[|name| - 1] == DOT then name[..|name| - 1] else name
  {
  }

  lemma {:induction false} NothingEncoded(name: seq<byte>)
    requires name == [] || name == [DOT]
    ensures Encoded(name) == Some([0])
  {
    assert Trimmed(name) == [];
    assert Wire([]) + [0] == [0];
  }

  /** What `Split` takes up after the first part. */
  function AfterPart(s: seq<byte>): seq<byte> {
    if IndexOf(s, DOT) == |s| then [] else s[IndexOf(s, DOT) + 1..]
  }

  lemma {:induction false} SplitFirst(s: seq<byte>)
    requires s != []
    ensures Split(s) == [s[..IndexOf(s, DOT)]] + Split(AfterPart(s))
  {
  }

  lemma {:induction false} FirstPart(sv: seq<byte>, start: nat)
    requires start < |sv|
    ensures var rest, dot := sv[start..], start + IndexOf(sv[start..], DOT);
            && Split(rest) == [sv[start..dot]] + Split(AfterPart(rest))
            && (dot + 1 < |sv| ==> AfterPart(rest) == sv[dot + 1..])
            && (dot + 1 >= |sv| ==> AfterPart(rest) == [])
  {
    hide Split, IndexOf;
    var rest, dot := sv[start..], start + IndexOf(sv[start..], DOT);
    SplitFirst(rest);
    SliceOfSuffix(sv, start, 0, dot - start);
    if dot < |sv| {
      SliceOfSuffix(sv, start, dot + 1 - start, |sv| - start);
    }
  }

  lemma {:induction false} WireAppend(a: seq<seq<byte>>, b: seq<seq<byte>>)
    ensures Wire(a + b) == Wire(a) + Wire(b)
  {
    if a == [] {
      assert a + b == b;
    } else {
      assert (a + b)[1..] == a[1..] + b;
      WireAppend(a[1..], b);
      Associate([|a[0]| % 256] + a[0], Wire(a[1..]), Wire(b));
    }
  }

  lemma {:induction false} WireSnoc(a: seq<seq<byte>>, l: seq<byte>)
    requires |l| <= 63
    ensures Wire(a + [l]) == Wire(a) + [|l|] + l
  {
    WireAppend(a, [l]);
    assert [l][1..] == [];
    assert Wire([l]) == [|l|] + l;
    Associate(Wire(a), [|l|], l);
  }

  // ---- reading -----------------------------------------------------------------------------------------

  /** The labels from one place on, up to a zero byte, the end of the data or a pointer. */
  datatype Segment =
    | Ends(labels: seq<seq<byte>>, next: nat)
    | Jumps(labels: seq<seq<byte>>, next: nat, target: nat)
    | Broken

  /** The segment of `data` at `offset`. A first byte from 64 to 191 is a length like any other. */
  function Scan(data: seq<byte>, offset: nat): (r: Segment)
    ensures r.Jumps? ==> r.target < 16384
    ensures !r.Broken? ==> offset <= r.next
    ensures !r.Broken? && offset <= |data| ==> r.next <= |data|
    decreases if offset < |data| then |data| - offset else 0
  {
    if offset >= |data| then Ends([], offset)
    else
      var b := data[offset];
      if b == 0 then Ends([], offset + 1)
      else if b >= 192 then
        if offset + 1 >= |data| then Broken else Jumps([], offset + 2, FromBe16(b % 64, data[offset + 1]))
      else if offset + 1 + b > |data| then Broken
      else Prepend(data[offset + 1..offset + 1 + b], Scan(data, offset + 1 + b))
  }

  function Prepend(l: seq<byte>, s: Segment): Segment {
    match s
    case Ends(labels, next) => Ends([l] + labels, next)
    case Jumps(labels, next, target) => Jumps([l] + labels, next, target)
    case Broken => Broken
  }

  /** The labels of the name at `offset`, through at most `fuel` segments. */
  function Resolve(data: seq<byte>, offset: nat, fuel: nat): Result<seq<seq<byte>>>
    decreases fuel
  {
    if fuel == 0 then Hangs
    else
      match Scan(data, offset)
      case Broken => Throws
      case Ends(labels, next) => Ok(labels, next)
      case Jumps(labels, next, target) =>
        match Resolve(data, target, fuel - 1)
        case Ok(more, _) => Ok(labels + more, next)
        case Throws => Throws
        case Hangs => Hangs
  }

  /** More segments than a chain of pointers without a loop can have: one, and one for each of the 2^14 places
    * that a pointer can point to. */
  const ALL: nat := 16385

  /** `DecodeName`. */
  function Named(data: seq<byte>, offset: nat): Result<seq<byte>> {
    AsName(Resolve(data, offset, ALL))
  }

  method DecodeName(data: seq<byte>, start: nat, fuel: nat) returns (r: Result<seq<byte>>)
    ensures r == AsName(Resolve(data, start, fuel))
    decreases fuel
  {
    if fuel == 0 {
      return Hangs;
    }
    hide Decoding, Resolve, AsName, FromBe16, Glued;
    var result: seq<byte> := [];
    var offset := start;
    ghost var done: seq<seq<byte>> := [];
    StartDecoding(data, start);
    while offset < |data|
      invariant Decoding(data, start, offset, result, done)
      decreases |data| - offset
    {
      var firstByte := data[offset];
      if firstByte == 0 {
        DecodingEnds(data, start, fuel, offset, result, done);
        return Ok(result, offset + 1);
      }
      if firstByte >= 192 {
        if offset + 1 >= |data| {
          DecodingBreaks(data, start, fuel, offset, result, done);
          return Throws;
        }
        var pointer := FromBe16(firstByte % 64, data[offset + 1]);
        var pointed := DecodeName(data, pointer, fuel - 1);
        DecodingJumps(data, start, fuel, offset, result, done);
        match pointed {
          case Ok(name, _) =>
            GluedIs(result, name);
            if result != [] && name != [] {
              result := result + [DOT];
            }
            return Ok(result + name, offset + 2);
          case Throws => return Throws;
          case Hangs => return Hangs;
        }
      }
      offset := offset + 1;
      if offset + firstByte > |data| {
        DecodingBreaks(data, start, fuel, offset - 1, result, done);
        return Throws;
      }
      DecodingStep(data, start, offset - 1, result, done);
      if result != [] {
        result := result + [DOT];
      }
      result := result + data[offset..offset + firstByte];
      done := done + [data[offset..offset + firstByte]];
      offset := offset + firstByte;
    }
    DecodingEnds(data, start, fuel, offset, result, done);
    return Ok(result, offset);
  }

  /** The labels `done` have been read, the segment goes on at `offset`. */
  ghost predicate Decoding(data: seq<byte>, start: nat, offset: nat, result: seq<byte>, done: seq<seq<byte>>) {
    && result == Join(done)
    && (result == [] <==> done == [])
    && Scan(data, start) == PrependAll(done, Scan(data, offset))
  }

  /** Two parts of a name, with a dot between them unless one is empty. */
  function Glued(a: seq<byte>, b: seq<byte>): seq<byte> {
    (if a != [] && b != [] then a + [DOT] else a) + b
  }

  lemma {:induction false} GluedIs(a: seq<byte>, b: seq<byte>)
    ensures Glued(a, b) == (if a != [] && b != [] then a + [DOT] else a) + b
  {
  }

  lemma {:induction false} StartDecoding(data: seq<byte>, start: nat)
    ensures Decoding(data, start, start, [], [])
  {
    Unscanned(Scan(data, start));
  }

  lemma {:induction false} DecodingStep(data: seq<byte>, start: nat, offset: nat, result: seq<byte>, done: seq<seq<byte>>)
    requires Decoding(data, start, offset, result, done) && offset < |data|
    requires 0 < data[offset] < 192 && offset + 1 + data[offset] <= |data|
    ensures var l := data[offset + 1..offset + 1 + data[offset]];
            Decoding(data, start, offset + 1 + data[offset], (if result != [] then result + [DOT] else result) + l, done + [l])
  {
    var next := offset + 1 + data[offset];
    var l := data[offset + 1..next];
    ScanStep(data, offset);
    PrependMore(done, l, Scan(data, next));
    JoinOne(l);
    JoinGlued(done, [l]);
    hide Scan, Join, Prepend, PrependAll;
  }

  lemma {:induction false} DecodingEnds(data: seq<byte>, start: nat, fuel: nat, offset: nat, result: seq<byte>, done: seq<seq<byte>>)
    requires Decoding(data, start, offset, result, done) && fuel > 0 && (offset < |data| ==> data[offset] == 0)
    ensures AsName(Resolve(data, start, fuel)) == Ok(result, if offset < |data| then offset + 1 else offset)
  {
    ScanStep(data, offset);
    ResolveStep(data, start, fuel);
    hide Scan, Join, Resolve;
    assert done + [] == done;
  }

  lemma {:induction false} DecodingBreaks(data: seq<byte>, start: nat, fuel: nat, offset: nat, result: seq<byte>, done: seq<seq<byte>>)
    requires Decoding(data, start, offset, result, done) && fuel > 0 && offset < |data|
    requires if data[offset] >= 192 then offset + 1 >= |data| else data[offset] > 0 && offset + 1 + data[offset] > |data|
    ensures AsName(Resolve(data, start, fuel)) == Throws
  {
    ScanStep(data, offset);
    ResolveStep(data, start, fuel);
    hide Scan, Join, Resolve;
  }

  lemma {:induction false} DecodingJumps(data: seq<byte>, start: nat, fuel: nat, offset: nat, result: seq<byte>, done: seq<seq<byte>>)
    requires Decoding(data, start, offset, result, done) && fuel > 0 && offset + 1 < |data| && data[offset] >= 192
    ensures AsName(Resolve(data, start, fuel)) ==
            match AsName(Resolve(data, FromBe16(data[offset] % 64, data[offset + 1]), fuel - 1))
            case Ok(name, _) => Ok(Glued(result, name), offset + 2)
            case Throws => Throws
            case Hangs => Hangs
  {
    var target := FromBe16(data[offset] % 64, data[offset + 1]);
    ScanStep(data, offset);
    ResolveStep(data, start, fuel);
    ResolvedNonempty(data, target, fuel - 1);
    hide Scan, Join, Resolve, FromBe16;
    assert done + [] == done;
    var r := Resolve(data, target, fuel - 1);
    if r.Ok? {
      JoinEmpty(r.value);
      JoinGlued(done, r.value);
    }
  }

  function AsName(r: Result<seq<seq<byte>>>): Result<seq<byte>> {
    match r
    case Ok(labels, next) => Ok(Join(labels), next)
    case Throws => Throws
    case Hangs => Hangs
  }

  /** One look at the data. */
  lemma {:induction false} ScanStep(data: seq<byte>, offset: nat)
    ensures Scan(data, offset) ==
            if offset >= |data| then Ends([], offset)
            else if data[offset] == 0 then Ends([], offset + 1)
            else if data[offset] >= 192 then
              if offset + 1 >= |data| then Broken else Jumps([], offset + 2, FromBe16(data[offset] % 64, data[offset + 1]))
            else if offset + 1 + data[offset] > |data| then Broken
            else Prepend(data[offset + 1..offset + 1 + data[offset]], Scan(data, offset + 1 + data[offset]))
  {
  }

  lemma {:induction false} ResolveStep(data: seq<byte>, offset: nat, fuel: nat)
    requires fuel > 0
    ensures Resolve(data, offset, fuel) ==
            match Scan(data, offset)
            case Broken => Throws
            case Ends(labels, next) => Ok(labels, next)
            case Jumps(labels, next, target) =>
              match Resolve(data, target, fuel - 1)
              case Ok(more, _) => Ok(labels + more, next)
              case Throws => Throws
              case Hangs => Hangs
  {
  }

  lemma {:induction false} JoinOne(l: seq<byte>)
    ensures Join([l]) == l
  {
  }

  lemma {:induction false} JoinGlued(a: seq<seq<byte>>, b: seq<seq<byte>>)
    ensures Join(a + b) == (if a != [] && b != [] then Join(a) + [DOT] else Join(a)) + Join(b)
  {
    JoinAppend(a, b);
  }

  lemma {:induction false} Unscanned(s: Segment)
    ensures PrependAll([], s) == s
  {
  }

  function PrependAll(ls: seq<seq<byte>>, s: Segment): Segment {
    match s
    case Ends(labels, next) => Ends(ls + labels, next)
    case Jumps(labels, next, target) => Jumps(ls + labels, next, target)
    case Broken => Broken
  }

  lemma {:induction false} PrependMore(ls: seq<seq<byte>>, l: seq<byte>, s: Segment)
    ensures PrependAll(ls, Prepend(l, s)) == PrependAll(ls + [l], s)
  {
    if !s.Broken? {
      Associate(ls, [l], s.labels);
    }
  }

  lemma {:induction false} JoinEmpty(ls: seq<seq<byte>>)
    requires forall l :: l in ls ==> l != []
    ensures Join(ls) == [] <==> ls == []
  {
    if |ls| == 1 {
      assert ls[0] in ls;
    }
  }

  lemma {:induction false} JoinAppend(a: seq<seq<byte>>, b: seq<seq<byte>>)
    ensures Join(a + b) == if a == [] then Join(b) else if b == [] then Join(a) else Join(a) + [DOT] + Join(b)
  {
    if a == [] {
      assert a + b == b;
    } else if b == [] {
      assert a + b == a;
    } else {
      assert (a + b)[1..] == a[1..] + b;
      JoinAppend(a[1..], b);
      if |a| > 1 {
        assert Join(a) == a[0] + [DOT] + Join(a[1..]);
        assert a[0] + [DOT] + (Join(a[1..]) + [DOT] + Join(b)) == a[0] + [DOT] + Join(a[1..]) + [DOT] + Join(b);
      } else {
        assert a[1..] == [];
        assert a[1..] + b == b;
      }
    }
  }

  lemma {:induction false} ScannedNonempty(data: seq<byte>, offset: nat)
    ensures var s := Scan(data, offset); !s.Broken? ==> forall l :: l in s.labels ==> l != []
    decreases if offset < |data| then |data| - offset else 0
  {
    if offset < |data| && 0 < data[offset] < 192 && offset + 1 + data[offset] <= |data| {
      ScannedNonempty(data, offset + 1 + data[offset]);
    }
  }

  lemma {:induction false} ResolvedNonempty(data: seq<byte>, offset: nat, fuel: nat)
    ensures var r := Resolve(data, offset, fuel); r.Ok? ==> forall l :: l in r.value ==> l != []
    decreases fuel
  {
    if fuel > 0 {
      ScannedNonempty(data, offset);
      var s := Scan(data, offset);
      if s.Jumps? {
        ResolvedNonempty(data, s.target, fuel - 1);
      }
    }
  }

  // ---- names come back ---------------------------------------------------------------------------------

  /** The labels before the first empty one, whose length byte would end the name. */
  function UpToEmpty(labels: seq<seq<byte>>): (r: seq<seq<byte>>)
    ensures |r| <= |labels|
  {
    if labels == [] || labels[0] == [] then [] else [labels[0]] + UpToEmpty(labels[1..])
  }

  /** The bytes of labels anywhere in a message, and a zero byte, are scanned as those labels, up to the first
    * empty one. */
  lemma {:induction false} ScanWire(pre: seq<byte>, labels: seq<seq<byte>>, post: seq<byte>)
    requires Short(labels)
    ensures Scan(pre + (Wire(labels) + [0]) + post, |pre|) == Ends(UpToEmpty(labels), |pre| + |Wire(UpToEmpty(labels))| + 1)
    decreases |labels|
  {
    hide Scan;
    if labels == [] || labels[0] == [] {
      assert (Wire(labels) + [0])[0] == 0;
      ZeroScanned(pre, Wire(labels) + [0], post);
    } else {
      var l, rest := labels[0], labels[1..];
      assert l in labels;
      ScanWire(pre + [|l|] + l, rest, post);
      WireFirst(labels);
      OneLabel(pre, l, Wire(rest) + [0], post);
      WireFirst([l] + UpToEmpty(rest));
      assert ([l] + UpToEmpty(rest))[1..] == UpToEmpty(rest);
      hide Wire;
    }
  }

  lemma {:induction false} ZeroScanned(pre: seq<byte>, w: seq<byte>, post: seq<byte>)
    requires w != [] && w[0] == 0
    ensures Scan(pre + w + post, |pre|) == Ends([], |pre| + 1)
  {
    assert (pre + w + post)[|pre|] == 0;
  }

  lemma {:induction false} WireFirst(labels: seq<seq<byte>>)
    requires labels != [] && |labels[0]| <= 63
    ensures Wire(labels) + [0] == [|labels[0]|] + labels[0] + (Wire(labels[1..]) + [0])
    ensures |Wire(labels)| == 1 + |labels[0]| + |Wire(labels[1..])|
  {
    Associate([|labels[0]|] + labels[0], Wire(labels[1..]), [0]);
  }

  lemma {:induction false} OneLabel(pre: seq<byte>, l: seq<byte>, rest: seq<byte>, post: seq<byte>)
    requires 1 <= |l| <= 63
    ensures pre + ([|l|] + l + rest) + post == (pre + [|l|] + l) + rest + post
    ensures Scan(pre + ([|l|] + l + rest) + post, |pre|)
         == Prepend(l, Scan((pre + [|l|] + l) + rest + post, |pre + [|l|] + l|))
  {
    var data := pre + ([|l|] + l + rest) + post;
    assert data == (pre + [|l|] + l) + rest + post;
    assert data[|pre|] == |l|;
    assert data[|pre| + 1..|pre| + 1 + |l|] == l;
  }

  predicate EndsInDot(s: seq<byte>) {
    s != [] && s[|s| - 1] == DOT
  }

  predicate NoneEmpty(labels: seq<seq<byte>>) {
    forall l :: l in labels ==> l != []
  }

  /** A name, with or without a dot at its end, whose labels have 1 to 63 bytes. */
  predicate Proper(name: seq<byte>) {
    var labels := Split(Trimmed(name));
    !EndsInDot(Trimmed(name)) && NoneEmpty(labels) && Short(labels)
  }

  /** Splitting and joining again loses nothing but a dot at the end. */
  lemma {:induction false} JoinSplit(s: seq<byte>)
    requires NoneEmpty(Split(s))
    ensures Join(Split(s)) == if EndsInDot(s) then s[..|s| - 1] else s
    decreases |s|
  {
    if s != [] {
      var d := IndexOf(s, DOT);
      var first, after := s[..d], AfterPart(s);
      SplitFirst(s);
      Parts(s);
      NoneEmptyRest(first, Split(after));
      JoinSplit(after);
      JoinGlued([first], Split(after));
      JoinOne(first);
      SplitSomething(after);
      hide Split, IndexOf, AfterPart, Join, NoneEmpty;
      if d < |s| && after != [] {
        LastOfParts(first, after);
      }
    }
  }

  /** Joining labels and splitting again loses nothing. */
  lemma {:induction false} SplitJoin(labels: seq<seq<byte>>)
    requires NoneEmpty(labels) && forall l :: l in labels ==> DOT !in l
    ensures Split(Join(labels)) == labels
  {
    if labels != [] {
      var first, rest := labels[0], labels[1..];
      assert labels == [first] + rest && first in labels && forall l :: l in rest ==> l in labels;
      SplitJoin(rest);
      JoinEmpty(rest);
      if rest != [] {
        var tail := [DOT] + Join(rest);
        IndexOfAfter(first, DOT, tail);
        Associate(first, [DOT], Join(rest));
        assert (first + tail)[..|first|] == first && (first + tail)[|first| + 1..] == Join(rest);
      } else {
        IndexOfAfter(first, DOT, []);
        assert first + [] == first && first[..|first|] == first;
      }
    }
  }

  lemma {:induction false} NoneEmptyRest(l: seq<byte>, labels: seq<seq<byte>>)
    requires NoneEmpty([l] + labels)
    ensures NoneEmpty(labels) && l != []
  {
    var all := [l] + labels;
    assert all[0] in all && forall i :: 0 <= i < |labels| ==> all[i + 1] == labels[i] && all[i + 1] in all;
  }

  lemma {:induction false} Parts(s: seq<byte>)
    requires s != []
    ensures var first, after := s[..IndexOf(s, DOT)], AfterPart(s);
            && |after| < |s|
            && s == (if IndexOf(s, DOT) < |s| then first + [DOT] + after else first)
            && (IndexOf(s, DOT) == |s| ==> after == [] && !EndsInDot(s))
  {
    DotFound(s);
  }

  lemma {:induction false} LastOfParts(first: seq<byte>, after: seq<byte>)
    requires after != []
    ensures var s := first + [DOT] + after;
            EndsInDot(s) == EndsInDot(after) && s[..|s| - 1] == first + [DOT] + after[..|after| - 1]
  {
  }

  lemma {:induction false} SplitSomething(s: seq<byte>)
    ensures s != [] <==> Split(s) != []
  {
  }

  lemma {:induction false} DotFound(s: seq<byte>)
    ensures var d := IndexOf(s, DOT); if d < |s| then s[d] == DOT else s == [] || s[|s| - 1] != DOT
  {
    if s != [] && s[0] != DOT {
      DotFound(s[1..]);
    }
  }

  lemma {:induction false} UpToEmptyIsAll(labels: seq<seq<byte>>)
    requires Short(labels)
    ensures NoneEmpty(labels) ==> UpToEmpty(labels) == labels
    ensures !NoneEmpty(labels) ==> |Wire(UpToEmpty(labels))| < |Wire(labels)|
    decreases |labels|
  {
    if labels != [] {
      var l, rest := labels[0], labels[1..];
      var up := [l] + UpToEmpty(rest);
      assert labels == [l] + rest && up[1..] == UpToEmpty(rest);
      UpToEmptyIsAll(rest);
      assert l in labels;
      WireFirst(labels);
      WireFirst(up);
      hide Wire;
      if NoneEmpty(labels) {
        NoneEmptyRest(l, rest);
      }
    }
  }

  /** The names that come back, wherever in a message they are written: without the dot at their end, and
    * with reading going on right behind them. */
  lemma {:induction false} NameRoundTrip(pre: seq<byte>, name: seq<byte>, post: seq<byte>)
    ensures Proper(name) <==>
            && Encoded(name).Some?
            && Named(pre + Encoded(name).value + post, |pre|) == Ok(Trimmed(name), |pre| + |Encoded(name).value|)
  {
    var t := Trimmed(name);
    var labels := Split(t);
    if Short(labels) {
      var data := pre + (Wire(labels) + [0]) + post;
      ScanWire(pre, labels, post);
      UpToEmptyIsAll(labels);
      ResolveStep(data, |pre|, ALL);
      hide Split, Wire, Scan, Resolve, Join, Trimmed, UpToEmpty, Short, NoneEmpty;
      if NoneEmpty(labels) {
        JoinSplit(t);
      }
    }
  }

  // ---- pointers ----------------------------------------------------------------------------------------

  /** Where the segment at `offset` points to, if it ends in a pointer. */
  function Hop(data: seq<byte>, offset: nat): Option<nat> {
    match Scan(data, offset)
    case Jumps(_, _, target) => Some(target)
    case _ => None
  }

  /** Where reading is after `k` pointers, if it gets that far. */
  function Place(data: seq<byte>, start: nat, k: nat): Option<nat>
    decreases k
  {
    if k == 0 then Some(start)
    else
      match Hop(data, start)
      case None => None
      case Some(target) => Place(data, target, k - 1)
  }

  /** The segments run out exactly when there is one pointer after the other. */
  lemma {:induction false} HangsWhileHopping(data: seq<byte>, start: nat, fuel: nat)
    ensures Resolve(data, start, fuel).Hangs? <==> Place(data, start, fuel).Some?
    decreases fuel
  {
    if fuel > 0 {
      var s := Scan(data, start);
      if s.Jumps? {
        HangsWhileHopping(data, s.target, fuel - 1);
      }
    }
  }

  lemma {:induction false} PlaceAdd(data: seq<byte>, start: nat, i: nat, k: nat)
    ensures Place(data, start, i + k) ==
            match Place(data, start, i)
            case None => None
            case Some(p) => Place(data, p, k)
    decreases i
  {
    if i > 0 && Hop(data, start).Some? {
      PlaceAdd(data, Hop(data, start).value, i - 1, k);
    }
  }

  /** Reading comes to one place twice. */
  ghost predicate Loops(data: seq<byte>, start: nat) {
    exists i: nat, j: nat {:trigger Place(data, start, i), Place(data, start, j)} ::
      i < j && Place(data, start, i).Some? && Place(data, start, i) == Place(data, start, j)
  }

  /** From a place that is reached again, reading never ends. */
  lemma {:induction false} RoundAndRound(data: seq<byte>, p: nat, d: nat, k: nat)
    requires d > 0 && Place(data, p, d) == Some(p)
    ensures Place(data, p, k).Some?
    decreases k
  {
    if k < d {
      PlaceAdd(data, p, k, d - k);
    } else {
      PlaceAdd(data, p, d, k - d);
      RoundAndRound(data, p, d, k - d);
    }
  }

  lemma {:induction false} LoopsNeverEnd(data: seq<byte>, start: nat, i: nat, j: nat, k: nat)
    requires i < j && Place(data, start, i).Some? && Place(data, start, i) == Place(data, start, j)
    ensures Place(data, start, k).Some?
  {
    var p := Place(data, start, i).value;
    PlaceAdd(data, start, i, j - i);
    RoundAndRound(data, p, j - i, k);
    PlaceAdd(data, start, i, k);
    PlaceAdd(data, start, k, i);
  }

  /** More numbers below `n` than `n` are not all different. */
  lemma {:induction false} Pigeonhole(s: seq<nat>, n: nat) returns (i: nat, j: nat)
    requires |s| > n > 0 && forall k :: 0 <= k < |s| ==> s[k] < n
    ensures i < j < |s| && s[i] == s[j]
    decreases n
  {
    if n == 1 {
      assert s[0] == s[1];
      return 0, 1;
    }
    if k :| 0 <= k < |s| && s[k] == n - 1 {
      if m :| 0 <= m < |s| && m != k && s[m] == n - 1 {
        return if k < m then k else m, if k < m then m else k;
      }
      var t := s[..k] + s[k + 1..];
      i, j := Pigeonhole(t, n - 1);
      i, j := if i < k then i else i + 1, if j < k then j else j + 1;
    } else {
      i, j := Pigeonhole(s, n - 1);
    }
  }

  lemma {:induction false} HopsStayLow(data: seq<byte>, start: nat, k: nat)
    requires k > 0 && Place(data, start, k).Some?
    ensures Place(data, start, k).value < 16384
    decreases k
  {
    if k > 1 {
      HopsStayLow(data, Hop(data, start).value, k - 1);
    }
  }

  function Places(data: seq<byte>, start: nat, n: nat): (r: seq<nat>)
    requires Place(data, start, n).Some?
    ensures |r| == n
    ensures forall k :: 0 <= k < n ==> Place(data, start, k + 1) == Some(r[k])
    decreases n
  {
    if n == 0 then []
    else
      PlaceAdd(data, start, n - 1, 1);
      Places(data, start, n - 1) + [Place(data, start, n).value]
  }

  /** `DecodeName` runs forever exactly if its pointers come back to a place where it has been; otherwise it
    * needs no more than 16385 segments, whatever the name. */
  lemma {:induction false} HangsIffLoops(data: seq<byte>, start: nat)
    ensures Named(data, start).Hangs? <==> Loops(data, start)
  {
    HangsWhileHopping(data, start, ALL);
    if Place(data, start, ALL).Some? {
      var places := Places(data, start, ALL);
      forall k | 0 <= k < |places| ensures places[k] < 16384 {
        PlaceAdd(data, start, k + 1, ALL - (k + 1));
        HopsStayLow(data, start, k + 1);
      }
      hide Place;
      var i, j := Pigeonhole(places, 16384);
      assert Place(data, start, i + 1) == Place(data, start, j + 1);
    }
    if Loops(data, start) {
      var i: nat, j: nat :| i < j && Place(data, start, i).Some? && Place(data, start, i) == Place(data, start, j);
      LoopsNeverEnd(data, start, i, j, ALL);
    }
  }

  /** For one: a pointer to itself. */
  lemma {:induction false} LoopingPointer()
    ensures Loops([192, 0], 0) && Named([192, 0], 0).Hangs?
  {
    var data: seq<byte> := [192, 0];
    assert Hop(data, 0) == Some(0);
    assert Place(data, 0, 0) == Some(0) && Place(data, 0, 1) == Some(0);
    HangsIffLoops(data, 0);
  }

  /** More segments than the bound change nothing. */
  lemma {:induction false} BoundIsEnough(data: seq<byte>, start: nat, more: nat)
    ensures Resolve(data, start, ALL + more) == Resolve(data, start, ALL)
  {
    HangsIffLoops(data, start);
    HangsWhileHopping(data, start, ALL);
    HangsWhileHopping(data, start, ALL + more);
    hide Resolve, Place;
    if Loops(data, start) {
      var i: nat, j: nat :| i < j && Place(data, start, i).Some? && Place(data, start, i) == Place(data, start, j);
      LoopsNeverEnd(data, start, i, j, ALL + more);
    } else {
      FuelEnough(data, start, ALL, more);
    }
  }

  lemma {:induction false} FuelEnough(data: seq<byte>, start: nat, fuel: nat, more: nat)
    requires !Resolve(data, start, fuel).Hangs?
    ensures Resolve(data, start, fuel + more) == Resolve(data, start, fuel)
    decreases fuel
  {
    var s := Scan(data, start);
    if s.Jumps? {
      FuelEnough(data, s.target, fuel - 1, more);
    }
  }

  /** Every pointer goes to a place before the name it belongs to. */
  predicate Backward(data: seq<byte>, start: nat)
    decreases start
  {
    match Hop(data, start)
    case None => true
    case Some(target) => target < start && Backward(data, target)
  }

  /** The labels of such a name: its own, then those of the name it points to. */
  function LabelList(data: seq<byte>, start: nat): Option<seq<seq<byte>>>
    requires Backward(data, start)
    decreases start
  {
    match Scan(data, start)
    case Broken => None
    case Ends(labels, _) => Some(labels)
    case Jumps(labels, _, target) =>
      match LabelList(data, target)
      case None => None
      case Some(more) => Some(labels + more)
  }

  lemma {:induction false} BackwardResolves(data: seq<byte>, start: nat, fuel: nat)
    requires Backward(data, start) && fuel > start
    ensures var r := Resolve(data, start, fuel);
            match LabelList(data, start)
            case None => r == Throws
            case Some(labels) => r.Ok? && r.value == labels && r.next == Scan(data, start).next
    decreases start
  {
    var s := Scan(data, start);
    if s.Jumps? {
      BackwardResolves(data, s.target, fuel - 1);
    }
  }

  /** If every pointer goes back, decoding ends, and its result is the labels with dots between them. */
  lemma {:induction false} BackwardNamesDecode(data: seq<byte>, start: nat)
    requires Backward(data, start)
    ensures match LabelList(data, start)
            case None => Named(data, start) == Throws
            case Some(labels) => Scan(data, start) != Broken && Named(data, start) == Ok(Join(labels), Scan(data, start).next)
  {
    BackwardResolves(data, start, ALL + start);
    BoundIsEnough(data, start, start);
  }

  // ---- names by the standard -----------------------------------------------------------------------------

  /** The labels that section 4.1.4 of RFC 1035 reads at `at` for a name that starts at `start`: a length byte has its two
    * high bits clear, a zero byte or a pointer ends the name, a pointer has them set and goes to an earlier name, and the
    * other two combinations are reserved. */
  function Standard(data: seq<byte>, start: nat, at: nat): Option<seq<seq<byte>>>
    requires start <= at
    decreases start, if at < |data| then |data| - at else 0
  {
    if at >= |data| then None
    else
      var b: nat := data[at];
      match b / 64
      case 0 =>
        if b == 0 then Some([])
        else if at + 1 + b > |data| then None
        else
          (match Standard(data, start, at + 1 + b)
           case None => None
           case Some(more) => Some([data[at + 1..at + 1 + b]] + more))
      case 3 =>
        if at + 1 >= |data| then None
        else
          var target := FromBe16(b % 64, data[at + 1]);
          if target < start then Standard(data, target, target) else None
      case _ => None
  }

  /** Where a name ends: behind its zero byte or its first pointer. */
  function NameEnd(data: seq<byte>, at: nat): nat
    decreases if at < |data| then |data| - at else 0
  {
    if at >= |data| then at
    else if data[at] == 0 then at + 1
    else if data[at] >= 192 then at + 2
    else NameEnd(data, at + 1 + data[at])
  }

  /** Reading comes to what the standard does not allow and the decoder takes all the same: a reserved length byte, the end
    * of the data in the place of a zero byte, or a pointer that does not go back. */
  predicate Deviates(data: seq<byte>, start: nat, at: nat)
    requires start <= at
    decreases start, if at < |data| then |data| - at else 0
  {
    if at >= |data| then true
    else
      var b: nat := data[at];
      if b == 0 then false
      else if b < 64 then at + 1 + b <= |data| && Deviates(data, start, at + 1 + b)
      else if b < 192 then true
      else
        at + 1 < |data| &&
        var target := FromBe16(b % 64, data[at + 1]);
        target >= start || Deviates(data, target, target)
  }

  lemma {:induction false} DeviatesFromStandard(data: seq<byte>, start: nat, at: nat)
    requires start <= at && Deviates(data, start, at)
    ensures Standard(data, start, at) == None
    decreases start, if at < |data| then |data| - at else 0
  {
    if at < |data| {
      var b: nat := data[at];
      if 0 < b < 64 {
        DeviatesFromStandard(data, start, at + 1 + b);
      } else if b >= 192 {
        var target := FromBe16(b % 64, data[at + 1]);
        if target < start {
          DeviatesFromStandard(data, target, target);
        }
      }
    }
  }

  /** One segment, read by the standard and by the decoder. */
  lemma {:induction false} StandardSegment(data: seq<byte>, start: nat, at: nat)
    requires start <= at && !Deviates(data, start, at)
    ensures match Scan(data, at)
            case Broken => Standard(data, start, at) == None
            case Ends(labels, next) => Standard(data, start, at) == Some(labels) && next == NameEnd(data, at)
            case Jumps(labels, next, target) =>
              && next == NameEnd(data, at) && target < start && !Deviates(data, target, target)
              && Standard(data, start, at) ==
                 match Standard(data, target, target)
                 case None => None
                 case Some(more) => Some(labels + more)
    decreases if at < |data| then |data| - at else 0
  {
    hide FromBe16;
    var b: nat := data[at];
    if 0 < b < 64 && at + 1 + b <= |data| {
      StandardSegment(data, start, at + 1 + b);
      var rest := Scan(data, at + 1 + b);
      if rest.Jumps? && Standard(data, rest.target, rest.target).Some? {
        Associate([data[at + 1..at + 1 + b]], rest.labels, Standard(data, rest.target, rest.target).value);
      }
    } else if b >= 192 && at + 1 < |data| {
      var target := FromBe16(b % 64, data[at + 1]);
      if Standard(data, target, target).Some? {
        assert [] + Standard(data, target, target).value == Standard(data, target, target).value;
      }
    }
  }

  lemma {:induction false} StandardResolves(data: seq<byte>, start: nat, fuel: nat)
    requires !Deviates(data, start, start) && fuel > start
    ensures Resolve(data, start, fuel) ==
            match Standard(data, start, start)
            case None => Throws
            case Some(labels) => Ok(labels, NameEnd(data, start))
    decreases start
  {
    hide Standard, Deviates, Scan, NameEnd;
    StandardSegment(data, start, start);
    var s := Scan(data, start);
    if s.Jumps? {
      StandardResolves(data, s.target, fuel - 1);
    }
  }

  /** A name of the standard: it takes 255 octets at most, the length bytes and the zero byte included (section 2.3.4 of
    * RFC 1035). */
  function StandardName(data: seq<byte>, start: nat): Option<seq<seq<byte>>> {
    match Standard(data, start, start)
    case None => None
    case Some(labels) => if |Wire(labels)| + 1 <= 255 then Some(labels) else None
  }

  /** A name has a dot where its labels on the wire have a length byte, but for the first. */
  lemma {:induction false} JoinedLength(labels: seq<seq<byte>>)
    ensures |Wire(labels)| == if labels == [] then 0 else |Join(labels)| + 1
    decreases |labels|
  {
    if labels != [] {
      JoinedLength(labels[1..]);
    }
  }

  /** A name that the standard allows is decoded as its labels with dots between them. What is decoded is such a name
    * exactly if it has at most 253 bytes and reading has come to nothing that the standard forbids: no reserved length
    * byte, not the end of the data, no pointer that does not go back. */
  lemma {:induction false} StandardNames(data: seq<byte>, start: nat)
    ensures match StandardName(data, start)
            case Some(labels) => Named(data, start) == Ok(Join(labels), NameEnd(data, start))
            case None => Named(data, start).Ok? ==> |Named(data, start).value| > 253 || Deviates(data, start, start)
    ensures StandardName(data, start).Some?
       <==> Named(data, start).Ok? && |Named(data, start).value| <= 253 && !Deviates(data, start, start)
  {
    hide Standard, Deviates, Scan, NameEnd, Resolve, Join, Wire;
    if Deviates(data, start, start) {
      DeviatesFromStandard(data, start, start);
    } else {
      StandardResolves(data, start, ALL + start);
      BoundIsEnough(data, start, start);
      var r := Standard(data, start, start);
      if r.Some? {
        JoinedLength(r.value);
        EmptyJoins(r.value);
      }
    }
  }

  lemma {:induction false} EmptyJoins(labels: seq<seq<byte>>)
    ensures labels == [] ==> Join(labels) == []
  {
  }

  /** Every list of proper labels that takes more than 255 octets is decoded all the same. */
  lemma {:induction false} LongNameIsTaken(labels: seq<seq<byte>>)
    requires NoneEmpty(labels) && Short(labels) && |Wire(labels)| + 1 > 255
    ensures var data := Wire(labels) + [0];
            Named(data, 0) == Ok(Join(labels), |data|) && StandardName(data, 0) == None
  {
    var data, none: seq<byte> := Wire(labels) + [0], [];
    assert none + data + none == data;
    ScanWire(none, labels, none);
    UpToEmptyIsAll(labels);
    ResolveStep(data, 0, ALL);
    hide Wire, Scan, Resolve, Join, Standard, Deviates;
    JoinedLength(labels);
    EmptyWire(labels);
    StandardNames(data, 0);
  }

  lemma {:induction false} EmptyWire(labels: seq<seq<byte>>)
    ensures labels == [] ==> Wire(labels) == []
  {
  }

  /** For one: a length byte of 64 is taken as a length. */
  lemma {:induction false} ReservedIsTaken(part: seq<byte>)
    requires |part| == 64
    ensures Named([64] + part + [0], 0).Ok? && Standard([64] + part + [0], 0, 0) == None
  {
    var data := [64] + part + [0];
    assert data[0] == 64 && data[65] == 0;
    ScanStep(data, 0);
    ScanStep(data, 65);
    ResolveStep(data, 0, ALL);
    hide Scan, Resolve;
  }
}
