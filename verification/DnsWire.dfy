/**
  * The wire format of section 4.1 of RFC 1035, byte by byte, and what becomes of the data of the four record types
  * that src/mdns/dns_message.cpp interprets: A, PTR and TXT (sections 3.4.1, 3.3.12 and 3.3.14), SRV (RFC 2782).
  */
module DnsWire {
  import opened Bytes
  import opened DnsMessage
  import opened DnsName

  import Text

  // ---- layouts -------------------------------------------------------------------------------------------

  /** Two octets, the greater first. */
  lemma {:induction false} Two(n: nat)
    requires n < 65536
    ensures n / 256 < 256 && Be16(n) == [n / 256, n % 256]
  {
    assert n / 256 < 256;
  }

  /** A question: name, type, class. */
  lemma {:induction false} QuestionLayout(q: Question)
    requires q.Valid() && Encoded(q.name).Some?
    ensures q.qtype / 256 < 256 && q.qclass / 256 < 256
    ensures QuestionBytes(q) == Some(Encoded(q.name).value + [q.qtype / 256, q.qtype % 256, q.qclass / 256, q.qclass % 256])
  {
    Two(q.qtype);
    Two(q.qclass);
    hide Encoded, Be16;
    assert Be16(q.qtype) + Be16(q.qclass) == [q.qtype / 256, q.qtype % 256, q.qclass / 256, q.qclass % 256];
  }

  lemma {:induction false} FourOctets(n: nat)
    requires n < 65536 * 65536
    ensures n / 65536 < 65536 && n / 0x100_0000 < 256
    ensures n / 65536 / 256 == n / 0x100_0000 && n / 65536 % 256 == n / 0x1_0000 % 256
    ensures n % 65536 / 256 == n / 256 % 256 && n % 65536 % 256 == n % 256
  {
    var hi, lo := n / 65536, n % 65536;
    assert n == 65536 * hi + lo;
    assert n / 256 == 256 * hi + lo / 256;
    assert hi / 256 == n / 0x100_0000;
    assert n / 256 % 256 == lo / 256;
  }

  /** A record: name, type, class, four octets of time to live, length of the data, data. */
  lemma {:induction false} RecordLayout(r: Resource)
    requires r.Valid() && Encoded(r.name).Some?
    ensures r.rtype / 256 < 256 && r.rclass / 256 < 256 && r.ttl / 0x100_0000 < 256
    ensures ResourceBytes(r) ==
            Some(Encoded(r.name).value
                 + ([r.rtype / 256, r.rtype % 256, r.rclass / 256, r.rclass % 256,
                     r.ttl / 0x100_0000, r.ttl / 0x1_0000 % 256, r.ttl / 0x100 % 256, r.ttl % 256,
                     |r.data| / 256 % 256, |r.data| % 256] + r.data))
  {
    FourOctets(r.ttl);
    Two(r.rtype);
    Two(r.rclass);
    Two(r.ttl / 65536);
    Two(r.ttl % 65536);
    hide Encoded;
    var n := |r.data|;
    assert Be16(n) == [n / 256 % 256, n % 256];
    hide Be16;
    assert Fixed(r) == [r.rtype / 256, r.rtype % 256, r.rclass / 256, r.rclass % 256,
                        r.ttl / 0x100_0000, r.ttl / 0x1_0000 % 256, r.ttl / 0x100 % 256, r.ttl % 256,
                        n / 256 % 256, n % 256];
  }

  /** The number that two octets write, the greater first. */
  function Number(b: seq<byte>, at: nat): nat
    requires at + 2 <= |b|
  {
    b[at] as int * 256 + b[at + 1]
  }

  /** The number that two octets write, the lesser first. */
  function Turned(b: seq<byte>, at: nat): nat
    requires at + 2 <= |b|
  {
    b[at] as int + 256 * b[at + 1] as int
  }

  /** The header: identifier and flags as they lie in memory, then how many items each list has, in network order. */
  lemma {:induction false} HeaderLayout(m: Message, b: seq<byte>)
    requires m.header.Valid() && MessageBytes(m) == Some(b)
    requires |m.questions| < 65536 && |m.answers| < 65536 && |m.authority| < 65536 && |m.additional| < 65536
    ensures |b| >= 12
    ensures && Turned(b, 0) == m.header.id && Turned(b, 2) == m.header.flags
            && Number(b, 4) == |m.questions| && Number(b, 6) == |m.answers|
            && Number(b, 8) == |m.authority| && Number(b, 10) == |m.additional|
  {
    hide MessageBytes, HeaderBytes, Counted, Swap16, Le16;
    HeaderFirst(m);
    HeaderFields(m);
    var h := HeaderBytes(Counted(m));
    assert forall i :: 0 <= i < 12 ==> b[i] == b[..12][i] == h[i];
  }

  lemma {:induction false} HeaderFields(m: Message)
    requires m.header.Valid()
    requires |m.questions| < 65536 && |m.answers| < 65536 && |m.authority| < 65536 && |m.additional| < 65536
    ensures var h := HeaderBytes(Counted(m));
            && Turned(h, 0) == m.header.id && Turned(h, 2) == m.header.flags
            && Number(h, 4) == |m.questions| && Number(h, 6) == |m.answers|
            && Number(h, 8) == |m.authority| && Number(h, 10) == |m.additional|
  {
    Le16RoundTrip(m.header.id);
    Le16RoundTrip(m.header.flags);
    CountLayout(|m.questions|);
    CountLayout(|m.answers|);
    CountLayout(|m.authority|);
    CountLayout(|m.additional|);
    hide Swap16, Le16;
    var a, b, c, d, e, f := Le16(m.header.id), Le16(m.header.flags), Le16(Swap16(|m.questions|)), Le16(Swap16(|m.answers|)),
                            Le16(Swap16(|m.authority|)), Le16(Swap16(|m.additional|));
    SixPairs(a, b, c, d, e, f);
  }

  lemma {:induction false} SixPairs<T>(a: seq<T>, b: seq<T>, c: seq<T>, d: seq<T>, e: seq<T>, f: seq<T>)
    requires |a| == |b| == |c| == |d| == |e| == |f| == 2
    ensures var h := a + b + c + d + e + f;
            && h[0] == a[0] && h[1] == a[1] && h[2] == b[0] && h[3] == b[1] && h[4] == c[0] && h[5] == c[1]
            && h[6] == d[0] && h[7] == d[1] && h[8] == e[0] && h[9] == e[1] && h[10] == f[0] && h[11] == f[1]
  {
  }

  lemma {:induction false} CountLayout(n: nat)
    requires n < 65536
    ensures Number(Le16(Swap16(n)), 0) == n
  {
    NetworkOrder(n);
    Two(n);
    hide Swap16, Le16;
  }

  lemma {:induction false} HeaderFirst(m: Message)
    requires MessageBytes(m).Some?
    ensures |MessageBytes(m).value| >= 12 && MessageBytes(m).value[..12] == HeaderBytes(Counted(m))
  {
    hide All, HeaderBytes;
  }

  /** The four lists follow the header in order, item by item. */
  lemma {:induction false} MessageLayout(m: Message)
    requires MessageBytes(m).Some?
    ensures |m.questions| == 1 && m.answers == [] && m.authority == [] && m.additional == [] ==>
              QuestionBytes(m.questions[0]).Some? && MessageBytes(m).value[12..] == QuestionBytes(m.questions[0]).value
    ensures m.questions == [] && |m.answers| == |m.authority| == |m.additional| == 1 ==>
              var a, n, x := ResourceBytes(m.answers[0]), ResourceBytes(m.authority[0]), ResourceBytes(m.additional[0]);
              a.Some? && n.Some? && x.Some? && MessageBytes(m).value[12..] == a.value + n.value + x.value
  {
    hide QuestionBytes, ResourceBytes, HeaderBytes, Counted;
    AtMostOne(QuestionBytes, m.questions);
    AtMostOne(ResourceBytes, m.answers);
    AtMostOne(ResourceBytes, m.authority);
    AtMostOne(ResourceBytes, m.additional);
    hide All;
    var h, q, a, n, x := HeaderBytes(Counted(m)), All(QuestionBytes, m.questions).value, All(ResourceBytes, m.answers).value,
                         All(ResourceBytes, m.authority).value, All(ResourceBytes, m.additional).value;
    assert MessageBytes(m).value[12..] == q + a + n + x;
  }

  lemma {:induction false} AtMostOne<T>(write: T -> Option<seq<byte>>, items: seq<T>)
    ensures items == [] ==> All(write, items) == Some([])
    ensures |items| == 1 ==> All(write, items) == write(items[0])
  {
    if |items| == 1 {
      assert items[..0] == [];
      assert All(write, items[..0]) == Some([]);
      if write(items[0]).Some? {
        assert [] + write(items[0]).value == write(items[0]).value;
      }
    }
  }

  /** A name: its labels behind their lengths, and a zero. */
  lemma {:induction false} NameLayout()
    ensures Encoded(Text.Ascii("_ipc._tcp.local.")) ==
            Some([4, 95, 105, 112, 99, 4, 95, 116, 99, 112, 5, 108, 111, 99, 97, 108, 0])
  {
    hide Encoded, Text.Ascii;
    var a: seq<byte>, b: seq<byte>, c: seq<byte> := [95, 105, 112, 99], [95, 116, 99, 112], [108, 111, 99, 97, 108];
    NameText();
    ThreeLabels(a, b, c);
    assert a + [DOT] + b + [DOT] + c + [DOT] == [95, 105, 112, 99, 46, 95, 116, 99, 112, 46, 108, 111, 99, 97, 108, 46];
    assert [|a|] + a + [|b|] + b + [|c|] + c + [0] == [4, 95, 105, 112, 99, 4, 95, 116, 99, 112, 5, 108, 111, 99, 97, 108, 0];
  }

  lemma {:induction false} ThreeLabels(a: seq<byte>, b: seq<byte>, c: seq<byte>)
    requires 0 < |a| < 64 && 0 < |b| < 64 && 0 < |c| < 64 && DOT !in a && DOT !in b && DOT !in c
    ensures Encoded(a + [DOT] + b + [DOT] + c + [DOT]) == Some([|a|] + a + [|b|] + b + [|c|] + c + [0])
  {
    hide Split, Wire, Join, Trimmed, Short;
    DotDropped(a + [DOT] + b + [DOT] + c);
    ThreeJoined(a, b, c);
    assert forall l :: l in [a, b, c] ==> l == a || l == b || l == c;
    SplitJoin([a, b, c]);
    ThreeWired(a, b, c);
    ThreeShort(a, b, c);
  }

  lemma {:induction false} NameText()
    ensures Text.Ascii("_ipc._tcp.local.") ==
            [95, 105, 112, 99, 46, 95, 116, 99, 112, 46, 108, 111, 99, 97, 108, 46]
  {
  }

  lemma {:induction false} DotDropped(name: seq<byte>)
    requires name != []
    ensures Trimmed(name + [DOT]) == name
  {
    assert (name + [DOT])[..|name|] == name;
  }

  lemma {:induction false} ThreeShort(a: seq<byte>, b: seq<byte>, c: seq<byte>)
    requires |a| < 64 && |b| < 64 && |c| < 64
    ensures Short([a, b, c])
  {
  }

  lemma {:induction false} ThreeJoined(a: seq<byte>, b: seq<byte>, c: seq<byte>)
    ensures Join([a, b, c]) == a + [DOT] + b + [DOT] + c
  {
    assert [a, b, c][1..] == [b, c] && [b, c][1..] == [c];
    assert Join([b, c]) == b + [DOT] + c;
  }

  lemma {:induction false} ThreeWired(a: seq<byte>, b: seq<byte>, c: seq<byte>)
    requires |a| < 64 && |b| < 64 && |c| < 64
    ensures Wire([a, b, c]) == [|a|] + a + [|b|] + b + [|c|] + c
  {
    WireFirst([a, b, c]);
    WireFirst([b, c]);
    WireFirst([c]);
  }

  /** A label of more than 63 octets, and nothing else, makes the encoder throw. */
  lemma {:induction false} LabelLimit(name: seq<byte>)
    ensures Encoded(name).None? <==> exists l :: l in Split(Trimmed(name)) && |l| > 63
  {
    hide Split, Trimmed, Wire;
  }

  // ---- the types that are interpreted ----------------------------------------------------------------------

  /** The text is four decimal numbers, which are the octets. */
  predicate IsText(address: seq<byte>, text: seq<byte>)
    requires |address| == 4
  {
    var parts := Split(text);
    && |text| < 16 && |parts| == 4
    && forall i :: 0 <= i < 4 ==> Text.AllDigits(parts[i]) && Text.Number(parts[i]) == address[i]
  }

  /** The bytes in front of a record's data. */
  function Head(r: Resource): seq<byte>
    requires ResourceBytes(r).Some?
  {
    Encoded(r.name).value + Fixed(r)
  }

  /** A record written into a message is read up to its data, which stand at the end of its bytes. */
  lemma {:induction false} ReadUpToData(pre: seq<byte>, r: Resource, post: seq<byte>)
    requires r.Valid() && Proper(r.name) && |r.data| < 65536
    ensures ResourceBytes(r).Some? && ResourceBytes(r).value == Head(r) + r.data
    ensures ReadRecord(pre + ResourceBytes(r).value + post, |pre|) ==
            ReadBody((pre + Head(r)) + r.data + post, r.(name := Trimmed(r.name)), |pre + Head(r)|, |r.data|)
  {
    hide Head, ResourceBytes, ReadRecord, ReadBody, Proper, Trimmed;
    ReadWhole(pre, r, post);
    HeadFirst(r);
    InFront(pre, Head(r), r.data, post);
  }

  lemma {:induction false} InFront<T>(pre: seq<T>, head: seq<T>, data: seq<T>, post: seq<T>)
    ensures pre + (head + data) + post == (pre + head) + data + post
  {
  }

  lemma {:induction false} ReadWhole(pre: seq<byte>, r: Resource, post: seq<byte>)
    requires r.Valid() && Proper(r.name) && |r.data| < 65536
    ensures ResourceBytes(r).Some? && |ResourceBytes(r).value| >= |r.data|
    ensures var data := pre + ResourceBytes(r).value + post;
            var at := |pre| + |ResourceBytes(r).value| - |r.data|;
            at + |r.data| <= |data| && ReadRecord(data, |pre|) == ReadBody(data, r.(name := Trimmed(r.name)), at, |r.data|)
  {
    hide ResourceBytes, ReadRecord, ReadBody, Proper, Trimmed, Head, Resource.Valid;
    RecordRead(pre, r, post);
    HeadFirst(r);
    assert |r.data| % 65536 == |r.data|;
    assert r.data[..|r.data|] == r.data;
    SameRecord(r, Trimmed(r.name), r.data);
  }

  lemma {:induction false} SameRecord(r: Resource, name: seq<byte>, data: seq<byte>)
    requires data == r.data
    ensures r.(name := name, data := data) == r.(name := name)
  {
  }

  lemma {:induction false} HeadFirst(r: Resource)
    requires ResourceBytes(r).Some?
    ensures ResourceBytes(r).value == Head(r) + r.data
  {
    hide Encoded, Fixed;
    Associate(Encoded(r.name).value, Fixed(r), r.data);
  }

  /** Type 1: four octets are printed in decimal; other data give nothing. */
  lemma {:induction false} AddressRecord(pre: seq<byte>, r: Resource, post: seq<byte>)
    requires r.Valid() && Proper(r.name) && r.rtype == 1 && |r.data| < 65536
    ensures ResourceBytes(r).Some?
    ensures var read := ReadRecord(pre + ResourceBytes(r).value + post, |pre|);
            && read.Ok? && read.next == |pre| + |ResourceBytes(r).value| && read.value.ARecord?
            && (|r.data| != 4 ==> read.value.ipv4 == [])
            && (|r.data| == 4 ==> IsText(r.data, read.value.ipv4))
  {
    hide Proper, Trimmed, Dotted, ResourceBytes, ReadRecord, Head, IsText;
    ReadUpToData(pre, r, post);
    DataPart(pre + Head(r), r.data, post, |r.data|);
    assert r.data[..|r.data|] == r.data;
    if |r.data| == 4 {
      DottedIsText(r.data);
    }
  }

  lemma {:induction false} DottedIsText(address: seq<byte>)
    requires |address| == 4
    ensures IsText(address, Dotted(address))
  {
    AddressReadsBack(address);
    hide Dotted, Split, Text.Number, Text.AllDigits;
  }

  /** Type 12: the name in the data. */
  lemma {:induction false} PointerRecord(pre: seq<byte>, r: Resource, target: seq<byte>, post: seq<byte>)
    requires r.Valid() && Proper(r.name) && r.rtype == 12 && |r.data| < 65536
    requires Proper(target) && Encoded(target) == Some(r.data)
    ensures ResourceBytes(r).Some?
    ensures ReadRecord(pre + ResourceBytes(r).value + post, |pre|) ==
            Ok(PtrRecord(Trimmed(target)), |pre| + |ResourceBytes(r).value|)
  {
    hide Proper, Trimmed, Encoded, Named, ResourceBytes, ReadRecord, Head;
    ReadUpToData(pre, r, post);
    NameRoundTrip(pre + Head(r), target, post);
  }

  /** Type 33: priority, weight and port, two octets each, then the name. */
  lemma {:induction false} ServiceRecord(pre: seq<byte>, r: Resource, priority: nat, weight: nat, port: nat, target: seq<byte>, post: seq<byte>)
    requires r.Valid() && Proper(r.name) && r.rtype == 33 && |r.data| < 65536
    requires |r.data| >= 6 && Number(r.data, 0) == priority && Number(r.data, 2) == weight && Number(r.data, 4) == port
    requires Proper(target) && Encoded(target) == Some(r.data[6..])
    ensures ResourceBytes(r).Some?
    ensures ReadRecord(pre + ResourceBytes(r).value + post, |pre|) ==
            Ok(SrvRecord(Some((priority, weight, port, Trimmed(target)))), |pre| + |ResourceBytes(r).value|)
  {
    hide Proper, Trimmed, Encoded, Named, ResourceBytes, ReadRecord, Head;
    ReadUpToData(pre, r, post);
    var p, d := pre + Head(r), r.data;
    NameRoundTrip(p + d[..6], target, post);
    assert d == d[..6] + d[6..];
    assert p + d + post == (p + d[..6]) + d[6..] + post;
    assert forall i :: 0 <= i < 6 ==> (p + d + post)[|p| + i] == d[i];
  }

  /** There is nothing in a record of type 33 with fewer than six octets. */
  lemma {:induction false} ShortServiceRecord(pre: seq<byte>, r: Resource, post: seq<byte>)
    requires r.Valid() && Proper(r.name) && r.rtype == 33 && |r.data| < 6
    ensures ResourceBytes(r).Some?
    ensures ReadRecord(pre + ResourceBytes(r).value + post, |pre|) == Ok(SrvRecord(None), |pre| + |ResourceBytes(r).value|)
  {
    hide Proper, Trimmed, Named, ResourceBytes, ReadRecord, Head;
    ReadUpToData(pre, r, post);
  }

  // ---- text records ----------------------------------------------------------------------------------------

  /** Character strings: each behind its length (section 3.3). */
  function Strings(strings: seq<seq<byte>>): seq<byte>
    requires forall s :: s in strings ==> |s| < 256
  {
    if strings == [] then [] else [|strings[0]|] + strings[0] + Strings(strings[1..])
  }

  /** The string says that `key` is `value`. */
  predicate Declares(s: seq<byte>, key: seq<byte>, value: seq<byte>) {
    61 !in key && s == key + [61] + value
  }

  /** The last of the strings that say something of `key` says `value`. */
  ghost predicate LastWord(strings: seq<seq<byte>>, key: seq<byte>, value: seq<byte>) {
    exists i :: 0 <= i < |strings| && Declares(strings[i], key, value)
                && forall j, v :: i < j < |strings| ==> !Declares(strings[j], key, v)
  }

  lemma {:induction false} EntryMeans(entries: map<seq<byte>, seq<byte>>, s: seq<byte>, key: seq<byte>, value: seq<byte>)
    ensures Declares(s, key, value) ==> WithEntry(entries, s) == entries[key := value]
    ensures (forall v :: !Declares(s, key, v)) ==>
              (key in WithEntry(entries, s) <==> key in entries) && (key in entries ==> WithEntry(entries, s)[key] == entries[key])
  {
    IndexOfMeans(s, 61);
    var d := IndexOf(s, 61);
    if Declares(s, key, value) {
      IndexOfAfter(key, 61, [61] + value);
      assert key + ([61] + value) == s;
    }
    if d < |s| {
      assert s == s[..d] + [61] + s[d + 1..];
      assert Declares(s, s[..d], s[d + 1..]);
    }
  }

  /** Nothing further is read where a string does not fit. */
  predicate Ends(rest: seq<byte>) {
    rest == [] || 1 + rest[0] > |rest|
  }

  lemma {:induction false} OneString(s: seq<byte>, rest: seq<byte>, entries: map<seq<byte>, seq<byte>>)
    requires |s| < 256
    ensures Entries([|s|] + s + rest, entries) == Entries(rest, WithEntry(entries, s))
  {
    hide WithEntry;
    var data := [|s|] + s + rest;
    assert data[1..1 + |s|] == s && data[1 + |s|..] == rest;
  }

  /** What a list of strings leaves in the entries. */
  lemma {:induction false} StringsMean(strings: seq<seq<byte>>, rest: seq<byte>, entries: map<seq<byte>, seq<byte>>,
                                       key: seq<byte>, value: seq<byte>)
    requires (forall s :: s in strings ==> |s| < 256) && Ends(rest)
    ensures var read := Entries(Strings(strings) + rest, entries);
            && (LastWord(strings, key, value) ==> key in read && read[key] == value)
            && ((forall i, v :: 0 <= i < |strings| ==> !Declares(strings[i], key, v)) ==>
                  (key in read <==> key in entries) && (key in entries ==> read[key] == entries[key]))
    decreases |strings|
  {
    if strings == [] {
      assert Strings(strings) + rest == rest;
      assert Entries(rest, entries) == entries;
    } else {
      var s, more := strings[0], strings[1..];
      var next := WithEntry(entries, s);
      assert Strings(strings) + rest == [|s|] + s + (Strings(more) + rest);
      OneString(s, Strings(more) + rest, entries);
      StringsMean(more, rest, next, key, value);
      EntryMeans(entries, s, key, value);
      hide Entries, Strings, WithEntry, Declares, Ends;
      FirstOrLater(strings, key, value);
    }
  }

  /** The last word is spoken by the first string or among the others. */
  lemma {:induction false} FirstOrLater(strings: seq<seq<byte>>, key: seq<byte>, value: seq<byte>)
    requires strings != []
    ensures LastWord(strings, key, value) ==>
            || LastWord(strings[1..], key, value)
            || (Declares(strings[0], key, value)
                && forall j, v :: 0 <= j < |strings[1..]| ==> !Declares(strings[1..][j], key, v))
    ensures (forall i, v :: 0 <= i < |strings| ==> !Declares(strings[i], key, v)) ==>
              forall j, v :: 0 <= j < |strings[1..]| ==> !Declares(strings[1..][j], key, v)
  {
    hide Declares;
    var more := strings[1..];
    assert forall j :: 0 <= j < |more| ==> more[j] == strings[j + 1];
    if LastWord(strings, key, value) {
      var i :| 0 <= i < |strings| && Declares(strings[i], key, value)
               && forall j, v :: i < j < |strings| ==> !Declares(strings[j], key, v);
      if i > 0 {
        assert Declares(more[i - 1], key, value);
      }
    }
  }

  /** Type 16: a key has the value that the last string about it gives; strings without '=' say nothing, and a string that
    * does not fit the data ends them. */
  lemma {:induction false} TextRecord(pre: seq<byte>, r: Resource, strings: seq<seq<byte>>, rest: seq<byte>, post: seq<byte>,
                                      key: seq<byte>, value: seq<byte>)
    requires r.Valid() && Proper(r.name) && r.rtype == 16 && |r.data| < 65536
    requires (forall s :: s in strings ==> |s| < 256) && Ends(rest) && r.data == Strings(strings) + rest
    ensures ResourceBytes(r).Some?
    ensures var read := ReadRecord(pre + ResourceBytes(r).value + post, |pre|);
            && read.Ok? && read.next == |pre| + |ResourceBytes(r).value| && read.value.TxtRecord?
            && (LastWord(strings, key, value) ==> key in read.value.entries && read.value.entries[key] == value)
            && ((forall i, v :: 0 <= i < |strings| ==> !Declares(strings[i], key, v)) ==> key !in read.value.entries)
  {
    hide Proper, Trimmed, Entries, Strings, ResourceBytes, LastWord, Declares, ReadRecord, Head, Ends;
    ReadUpToData(pre, r, post);
    DataPart(pre + Head(r), r.data, post, |r.data|);
    assert r.data[..|r.data|] == r.data;
    StringsMean(strings, rest, map[], key, value);
  }
}
