/**
  * DNS messages as src/mdns/dns_message.cpp encodes and decodes them (section 4.1 of RFC 1035), on a
  * little-endian host.
  */
module DnsMessage {
  import opened Bytes
  import opened DnsName

  import Text

  // ---- numbers -----------------------------------------------------------------------------------------

  /** A 16-bit number as it lies in memory. */
  function Le16(n: nat): (r: seq<byte>)
    ensures |r| == 2
  {
    [n % 256, n / 256 % 256]
  }

  /** `Htons` and `Ntohs`. */
  function Swap16(n: nat): (r: nat)
    ensures r < 65536
  {
    n / 256 % 256 + (n % 256) * 256
  }

  lemma {:induction false} NetworkOrder(n: nat)
    ensures Le16(Swap16(n)) == Be16(n)
    ensures n < 65536 ==> Swap16(Swap16(n)) == n
  {
    var hi, lo := n / 256 % 256, n % 256;
    TwoBytes(hi, lo);
    assert Swap16(n) == hi + lo * 256;
    assert Le16(Swap16(n)) == [hi, lo] && Swap16(Swap16(n)) == lo + hi * 256;
    if n < 65536 {
      assert n / 256 < 256;
    }
  }

  lemma {:induction false} TwoBytes(a: nat, b: nat)
    requires a < 256 && b < 256
    ensures (a + b * 256) % 256 == a && (a + b * 256) / 256 == b && b % 256 == b
  {
  }

  // ---- messages ----------------------------------------------------------------------------------------

  /** The header's six 16-bit fields as they lie in memory, in host order. */
  datatype Header = Header(id: nat, flags: nat, qdcount: nat, ancount: nat, nscount: nat, arcount: nat) {
    predicate Valid() {
      id < 65536 && flags < 65536 && qdcount < 65536 && ancount < 65536 && nscount < 65536 && arcount < 65536
    }
  }

  datatype Question = Question(name: seq<byte>, qtype: nat, qclass: nat) {
    predicate Valid() {
      qtype < 65536 && qclass < 65536
    }
  }

  /** A record to be encoded. */
  datatype Resource = Resource(name: seq<byte>, rtype: nat, rclass: nat, ttl: nat, data: seq<byte>) {
    predicate Valid() {
      rtype < 65536 && rclass < 65536 && ttl < 65536 * 65536
    }
  }

  datatype Message = Message(header: Header, questions: seq<Question>,
                             answers: seq<Resource>, authority: seq<Resource>, additional: seq<Resource>)

  const A: nat := 1
  const PTR: nat := 12
  const TXT: nat := 16
  const SRV: nat := 33

  /** A record as decoded. Only those of other types keep their name, type, class and time to live. */
  datatype Record =
    | ARecord(ipv4: seq<byte>)                                  // in decimal, with dots; empty if there are not four bytes
    | PtrRecord(target: seq<byte>)
    | SrvRecord(fields: Option<(nat, nat, nat, seq<byte>)>)     // priority, weight, port, target
    | TxtRecord(entries: map<seq<byte>, seq<byte>>)
    | GenericRecord(resource: Resource)

  datatype DecodedMessage = DecodedMessage(header: Header, questions: seq<Question>,
                                           answers: seq<Record>, authority: seq<Record>, additional: seq<Record>)

  // ---- writing -----------------------------------------------------------------------------------------

  function QuestionBytes(q: Question): Option<seq<byte>> {
    match Encoded(q.name)
    case None => None
    case Some(name) => Some(name + (Be16(q.qtype) + Be16(q.qclass)))
  }

  function ResourceBytes(r: Resource): Option<seq<byte>> {
    match Encoded(r.name)
    case None => None
    case Some(name) =>
      Some(name + (Fixed(r) + r.data))
  }

  /** What stands between a record's name and its data. */
  function Fixed(r: Resource): (f: seq<byte>)
    ensures |f| == 10
  {
    Be16(r.rtype) + Be16(r.rclass) + (Be16(r.ttl / 65536) + Be16(r.ttl % 65536)) + Be16(|r.data|)
  }

  /** One item's bytes after the other; None if one of them throws. */
  ghost function All<T>(write: T -> Option<seq<byte>>, items: seq<T>): Option<seq<byte>> {
    if items == [] then Some([])
    else
      match (All(write, items[..|items| - 1]), write(items[|items| - 1]))
      case (Some(before), Some(last)) => Some(before + last)
      case _ => None
  }

  function HeaderBytes(h: Header): (r: seq<byte>)
    ensures |r| == 12
  {
    Le16(h.id) + Le16(h.flags) + Le16(h.qdcount) + Le16(h.ancount) + Le16(h.nscount) + Le16(h.arcount)
  }

  /** The header as sent: the counts are those of the lists. */
  function Counted(m: Message): Header {
    m.header.(qdcount := Swap16(|m.questions|), ancount := Swap16(|m.answers|),
              nscount := Swap16(|m.authority|), arcount := Swap16(|m.additional|))
  }

  ghost function MessageBytes(m: Message): Option<seq<byte>> {
    match (All(QuestionBytes, m.questions), All(ResourceBytes, m.answers), All(ResourceBytes, m.authority), All(ResourceBytes, m.additional))
    case (Some(q), Some(a), Some(n), Some(x)) => Some(HeaderBytes(Counted(m)) + q + a + n + x)
    case _ => None
  }

  method EncodeQuestion(q: Question) returns (r: Option<seq<byte>>)
    ensures r == QuestionBytes(q)
  {
    var name := EncodeName(q.name);
    if name == None {
      return None;
    }
    var qtype, qclass := Swap16(q.qtype), Swap16(q.qclass);
    NetworkOrder(q.qtype);
    NetworkOrder(q.qclass);
    var result := name.value;
    result := result + Le16(qtype);
    result := result + Le16(qclass);
    assert result == name.value + (Be16(q.qtype) + Be16(q.qclass));
    return Some(result);
  }

  method EncodeResourceRecord(rr: Resource) returns (r: Option<seq<byte>>)
    ensures r == ResourceBytes(rr)
  {
    var name := EncodeName(rr.name);
    if name == None {
      return None;
    }
    NetworkOrder(rr.rtype);
    NetworkOrder(rr.rclass);
    NetworkOrder(rr.ttl / 65536);
    NetworkOrder(rr.ttl % 65536);
    NetworkOrder(|rr.data|);
    hide Swap16, Le16, Be16, Encoded;
    var result := name.value;
    result := result + Le16(Swap16(rr.rtype));
    result := result + Le16(Swap16(rr.rclass));
    // Htonl swaps the halves, and the bytes of each
    result := result + Le16(Swap16(rr.ttl / 65536)) + Le16(Swap16(rr.ttl % 65536));
    result := result + Le16(Swap16(|rr.data|));
    result := result + rr.data;
    Appended(name.value, Be16(rr.rtype), Be16(rr.rclass), Be16(rr.ttl / 65536), Be16(rr.ttl % 65536), Be16(|rr.data|), rr.data);
    return Some(result);
  }

  lemma {:induction false} Appended<T>(name: seq<T>, a: seq<T>, b: seq<T>, c: seq<T>, d: seq<T>, e: seq<T>, data: seq<T>)
    ensures name + a + b + c + d + e + data == name + (a + b + (c + d) + e + data)
  {
  }

  method EncodeQuestions(items: seq<Question>) returns (r: Option<seq<byte>>)
    ensures r == All(QuestionBytes, items)
  {
    var result: seq<byte> := [];
    for i := 0 to |items|
      invariant All(QuestionBytes, items[..i]) == Some(result)
    {
      var one := EncodeQuestion(items[i]);
      AllStep(QuestionBytes, items, i);
      if one == None {
        AllStops(QuestionBytes, items, i + 1);
        return None;
      }
      result := result + one.value;
    }
    assert items[..|items|] == items;
    return Some(result);
  }

  method EncodeRecords(items: seq<Resource>) returns (r: Option<seq<byte>>)
    ensures r == All(ResourceBytes, items)
  {
    var result: seq<byte> := [];
    for i := 0 to |items|
      invariant All(ResourceBytes, items[..i]) == Some(result)
    {
      var one := EncodeResourceRecord(items[i]);
      AllStep(ResourceBytes, items, i);
      if one == None {
        AllStops(ResourceBytes, items, i + 1);
        return None;
      }
      result := result + one.value;
    }
    assert items[..|items|] == items;
    return Some(result);
  }

  lemma {:induction false} AllStep<T>(write: T -> Option<seq<byte>>, items: seq<T>, i: nat)
    requires i < |items|
    ensures All(write, items[..i + 1]) ==
            match (All(write, items[..i]), write(items[i]))
            case (Some(before), Some(last)) => Some(before + last)
            case _ => None
  {
    assert items[..i + 1][..i] == items[..i];
  }

  lemma {:induction false} AllStops<T>(write: T -> Option<seq<byte>>, items: seq<T>, i: nat)
    requires i <= |items| && All(write, items[..i]) == None
    ensures All(write, items) == None
    decreases |items| - i
  {
    if i == |items| {
      assert items[..i] == items;
    } else {
      AllStep(write, items, i);
      AllStops(write, items, i + 1);
    }
  }

  /** `Encode`; None where a label longer than 63 bytes makes it throw. */
  method Encode(m: Message) returns (r: Option<seq<byte>>)
    ensures r == MessageBytes(m)
  {
    var header := m.header;
    header := header.(qdcount := Swap16(|m.questions| % 65536));
    header := header.(ancount := Swap16(|m.answers| % 65536));
    header := header.(nscount := Swap16(|m.authority| % 65536));
    header := header.(arcount := Swap16(|m.additional| % 65536));
    Cut16(|m.questions|);
    Cut16(|m.answers|);
    Cut16(|m.authority|);
    Cut16(|m.additional|);
    assert header == Counted(m);
    var result := HeaderBytes(header);
    var questions := EncodeQuestions(m.questions);
    var answers := EncodeRecords(m.answers);
    var authority := EncodeRecords(m.authority);
    var additional := EncodeRecords(m.additional);
    if questions == None || answers == None || authority == None || additional == None {
      return None;
    }
    return Some(result + questions.value + answers.value + authority.value + additional.value);
  }

  lemma {:induction false} Cut16(n: nat)
    ensures Swap16(n % 65536) == Swap16(n)
  {
    var q, r := n / 65536, n % 65536;
    assert n / 256 == 256 * q + r / 256;
    assert n % 256 == r % 256;
  }

  // ---- reading -----------------------------------------------------------------------------------------

  function Read16(data: seq<byte>, offset: nat): nat
    requires offset + 2 <= |data|
  {
    FromBe16(data[offset], data[offset + 1])
  }

  function ReadQuestion(data: seq<byte>, offset: nat): Result<Question> {
    match Named(data, offset)
    case Throws => Throws
    case Hangs => Hangs
    case Ok(name, at) =>
      if at + 4 > |data| then Throws
      else Ok(Question(name, Read16(data, at), Read16(data, at + 2)), at + 4)
  }

  /** The strings of a TXT record that have a '=' in them; a string that does not fit ends it. */
  function Entries(rdata: seq<byte>, entries: map<seq<byte>, seq<byte>>): map<seq<byte>, seq<byte>>
    decreases |rdata|
  {
    if rdata == [] || 1 + rdata[0] > |rdata| then entries
    else Entries(rdata[1 + rdata[0]..], WithEntry(entries, rdata[1..1 + rdata[0]]))
  }

  const EQUALS: byte := 61

  function WithEntry(entries: map<seq<byte>, seq<byte>>, s: seq<byte>): map<seq<byte>, seq<byte>> {
    var eq := IndexOf(s, EQUALS);
    if eq == |s| then entries else entries[s[..eq] := s[eq + 1..]]
  }

  /** The bytes of an address, each in decimal. */
  function Octets(address: seq<byte>): (r: seq<seq<byte>>)
    requires |address| == 4
    ensures |r| == 4
  {
    seq(4, i requires 0 <= i < 4 => Text.Decimal(address[i]))
  }

  /** An address as `%d.%d.%d.%d` prints it. */
  function Dotted(address: seq<byte>): seq<byte>
    requires |address| == 4
  {
    Join(Octets(address))
  }

  lemma {:induction false} DecimalShort(b: byte)
    ensures |Text.Decimal(b)| <= 3 && DOT !in Text.Decimal(b)
  {
    assert Text.Decimal(b) == if b < 10 then [48 + b] else if b < 100 then [48 + b / 10, 48 + b % 10]
                              else [48 + b / 100, 48 + b / 10 % 10, 48 + b % 10];
  }

  lemma {:induction false} JoinFour(a: seq<byte>, b: seq<byte>, c: seq<byte>, d: seq<byte>)
    ensures Join([a, b, c, d]) == a + [DOT] + b + [DOT] + c + [DOT] + d
  {
    var labels := [a, b, c, d];
    assert labels[1..] == [b, c, d] && [b, c, d][1..] == [c, d] && [c, d][1..] == [d];
    assert Join([c, d]) == c + [DOT] + d;
    assert Join([b, c, d]) == b + [DOT] + (c + [DOT] + d);
    assert Join(labels) == a + [DOT] + (b + [DOT] + (c + [DOT] + d));
  }

  lemma {:induction false} DottedInPlace(data: seq<byte>, at: nat)
    requires at + 4 <= |data|
    ensures Dotted(data[at..at + 4]) == Text.Decimal(data[at]) + [DOT] + Text.Decimal(data[at + 1]) + [DOT]
                                        + Text.Decimal(data[at + 2]) + [DOT] + Text.Decimal(data[at + 3])
  {
    hide Join;
    var a, b, c, d := Text.Decimal(data[at]), Text.Decimal(data[at + 1]), Text.Decimal(data[at + 2]), Text.Decimal(data[at + 3]);
    JoinFour(a, b, c, d);
    assert Octets(data[at..at + 4]) == [a, b, c, d];
  }

  /** The text of an address fits the 16 bytes it is printed into, and is four numbers with dots between them, which are
    * the bytes of the address. */
  lemma {:induction false} AddressReadsBack(address: seq<byte>)
    requires |address| == 4
    ensures var text := Dotted(address);
            && |text| < 16 && |Split(text)| == 4
            && forall i :: 0 <= i < 4 ==> Text.AllDigits(Split(text)[i]) && Text.Number(Split(text)[i]) == address[i]
  {
    hide Join, Split, Text.Number, Text.AllDigits, Text.Decimal;
    var octets := Octets(address);
    forall i | 0 <= i < 4
      ensures |octets[i]| <= 3 && DOT !in octets[i] && Text.AllDigits(octets[i]) && Text.Number(octets[i]) == address[i]
    {
      DecimalShort(address[i]);
      Text.DecimalMeans(address[i]);
    }
    SplitJoin(octets);
    JoinFour(octets[0], octets[1], octets[2], octets[3]);
    assert octets == [octets[0], octets[1], octets[2], octets[3]];
  }

  /** The body of a record with `length` bytes of data at `at`. */
  function ReadBody(data: seq<byte>, resource: Resource, at: nat, length: nat): Result<Record>
    requires at + length <= |data|
  {
    var next := at + length;
    if resource.rtype == A then Ok(ARecord(if length == 4 then Dotted(data[at..next]) else []), next)
    else if resource.rtype == PTR then
      match Named(data, at)
      case Throws => Throws
      case Hangs => Hangs
      case Ok(target, _) => Ok(PtrRecord(target), next)
    else if resource.rtype == SRV then
      if length < 6 then Ok(SrvRecord(None), next)
      else
        match Named(data, at + 6)
        case Throws => Throws
        case Hangs => Hangs
        case Ok(target, _) => Ok(SrvRecord(Some((Read16(data, at), Read16(data, at + 2), Read16(data, at + 4), target))), next)
    else if resource.rtype == TXT then Ok(TxtRecord(Entries(data[at..next], map[])), next)
    else Ok(GenericRecord(resource), next)
  }

  function ReadRecord(data: seq<byte>, offset: nat): Result<Record> {
    if offset >= |data| then Throws
    else
      match Named(data, offset)
      case Throws => Throws
      case Hangs => Hangs
      case Ok(name, at) =>
        if at + 10 > |data| then Throws
        else
          var length := Read16(data, at + 8);
          if at + 10 + length > |data| then Throws
          else
            var resource := Resource(name, Read16(data, at), Read16(data, at + 2), Read16(data, at + 4) * 65536 + Read16(data, at + 6),
                                     data[at + 10..at + 10 + length]);
            ReadBody(data, resource, at + 10, length)
  }

  /** `n` items one after the other. */
  ghost function Many<T>(read: (seq<byte>, nat) -> Result<T>, data: seq<byte>, offset: nat, n: nat): Result<seq<T>>
    decreases n
  {
    if n == 0 then Ok([], offset)
    else
      match read(data, offset)
      case Throws => Throws
      case Hangs => Hangs
      case Ok(x, at) =>
        match Many(read, data, at, n - 1)
        case Throws => Throws
        case Hangs => Hangs
        case Ok(xs, next) => Ok([x] + xs, next)
  }

  function FromLe16(a: byte, b: byte): nat {
    a + b * 256
  }

  function ReadHeader(data: seq<byte>): Header
    requires |data| >= 12
  {
    Header(FromLe16(data[0], data[1]), FromLe16(data[2], data[3]), FromLe16(data[4], data[5]),
           FromLe16(data[6], data[7]), FromLe16(data[8], data[9]), FromLe16(data[10], data[11]))
  }

  /** What `Decode` returns: nothing where an exception was thrown on the way. */
  datatype Decoding = Decoded(message: DecodedMessage) | Nothing | RunsForever

  function Failure<T>(r: Result<T>): Decoding {
    if r.Hangs? then RunsForever else Nothing
  }

  /** The four lists follow each other. */
  ghost function ReadMessage(data: seq<byte>): Decoding {
    if |data| < 12 then Nothing
    else
      var h := ReadHeader(data);
      var q := Many(ReadQuestion, data, 12, Swap16(h.qdcount));
      if !q.Ok? then Failure(q) else
        var a := Many(ReadRecord, data, q.next, Swap16(h.ancount));
        if !a.Ok? then Failure(a) else
          var n := Many(ReadRecord, data, a.next, Swap16(h.nscount));
          if !n.Ok? then Failure(n) else
            var x := Many(ReadRecord, data, n.next, Swap16(h.arcount));
            if !x.Ok? then Failure(x) else Decoded(DecodedMessage(h, q.value, a.value, n.value, x.value))
  }

  method DecodeQuestion(data: seq<byte>, start: nat) returns (r: Result<Question>)
    ensures r == ReadQuestion(data, start)
  {
    hide Resolve;
    var name := DecodeName(data, start, ALL);
    match name {
      case Throws => return Throws;
      case Hangs => return Hangs;
      case Ok(n, at) =>
        var offset := at;
        if offset + 4 > |data| {
          return Throws;
        }
        var qtype := Read16(data, offset);
        offset := offset + 2;
        var qclass := Read16(data, offset);
        offset := offset + 2;
        return Ok(Question(n, qtype, qclass), offset);
    }
  }

  method DecodeTxt(data: seq<byte>, offset: nat, length: nat) returns (entries: map<seq<byte>, seq<byte>>)
    requires offset + length <= |data|
    ensures entries == Entries(data[offset..offset + length], map[])
  {
    hide Entries;
    entries := map[];
    var txtOffset, end := offset, offset + length;
    while txtOffset < end
      invariant offset <= txtOffset <= end
      invariant Entries(data[txtOffset..end], entries) == Entries(data[offset..end], map[])
      decreases end - txtOffset
    {
      EntriesStep(data, txtOffset, end, entries);
      var len := data[txtOffset];
      txtOffset := txtOffset + 1;
      if txtOffset + len > end {
        return;
      }
      var str := data[txtOffset..txtOffset + len];
      txtOffset := txtOffset + len;
      var eqPos := IndexOf(str, EQUALS);
      if eqPos != |str| {
        entries := entries[str[..eqPos] := str[eqPos + 1..]];
      }
    }
    EntriesEnd(data[txtOffset..end], entries);
  }

  lemma {:induction false} EntriesEnd(rdata: seq<byte>, entries: map<seq<byte>, seq<byte>>)
    requires rdata == []
    ensures Entries(rdata, entries) == entries
  {
  }

  lemma {:induction false} EntriesStep(data: seq<byte>, from: nat, end: nat, entries: map<seq<byte>, seq<byte>>)
    requires from < end <= |data|
    ensures var len: nat := data[from];
            Entries(data[from..end], entries) ==
            if from + 1 + len > end then entries
            else Entries(data[from + 1 + len..end], WithEntry(entries, data[from + 1..from + 1 + len]))
  {
    hide Entries, WithEntry;
    var len: nat := data[from];
    EntriesFirst(data[from..end], entries);
    if from + 1 + len <= end {
      SliceOfSlice(data, from, end, 1, 1 + len);
      SliceOfSlice(data, from, end, 1 + len, end - from);
    }
  }

  lemma {:induction false} EntriesFirst(rdata: seq<byte>, entries: map<seq<byte>, seq<byte>>)
    requires rdata != []
    ensures var len: nat := rdata[0];
            Entries(rdata, entries) ==
            if 1 + len > |rdata| then entries else Entries(rdata[1 + len..|rdata|], WithEntry(entries, rdata[1..1 + len]))
  {
    hide WithEntry;
    var len: nat := rdata[0];
    if 1 + len <= |rdata| {
      assert rdata[1 + len..] == rdata[1 + len..|rdata|];
    }
  }

  lemma {:induction false} SliceOfSlice<T>(s: seq<T>, from: nat, to: nat, i: nat, j: nat)
    requires from <= to <= |s| && i <= j <= to - from
    ensures s[from..to][i..j] == s[from + i..from + j]
  {
    var mid := s[from..to];
    assert forall k :: 0 <= k < j - i ==> mid[i..j][k] == mid[i + k] == s[from + i + k];
  }

  method DecodeResourceRecord(data: seq<byte>, start: nat) returns (r: Result<Record>)
    ensures r == ReadRecord(data, start)
  {
    hide Resolve, FromBe16, ReadBody;
    if start >= |data| {
      return Throws;
    }
    var name := DecodeName(data, start, ALL);
    if name.Throws? {
      return Throws;
    }
    if name.Hangs? {
      return Hangs;
    }
    var at := name.next;
    if at + 10 > |data| {
      return Throws;
    }
    var rtype, rclass := Read16(data, at), Read16(data, at + 2);
    var ttl := Read16(data, at + 4) * 65536 + Read16(data, at + 6);
    var rdlength := Read16(data, at + 8);
    var offset := at + 10;
    if offset + rdlength > |data| {
      return Throws;
    }
    var resource := Resource(name.value, rtype, rclass, ttl, data[offset..offset + rdlength]);
    r := DecodeBody(data, resource, offset, rdlength);
  }

  /** The switch over the record types. */
  method DecodeBody(data: seq<byte>, resource: Resource, offset: nat, rdlength: nat) returns (r: Result<Record>)
    requires offset + rdlength <= |data|
    ensures r == ReadBody(data, resource, offset, rdlength)
  {
    hide Resolve;
    var next := offset + rdlength;
    if resource.rtype == A {
      var ipv4: seq<byte> := [];
      if rdlength == 4 {
        ipv4 := Text.Decimal(data[offset]) + [DOT] + Text.Decimal(data[offset + 1]) + [DOT]
                + Text.Decimal(data[offset + 2]) + [DOT] + Text.Decimal(data[offset + 3]);
        DottedInPlace(data, offset);
      }
      return Ok(ARecord(ipv4), next);
    } else if resource.rtype == PTR {
      var target := DecodeName(data, offset, ALL);
      match target {
        case Throws => return Throws;
        case Hangs => return Hangs;
        case Ok(name, _) => return Ok(PtrRecord(name), next);
      }
    } else if resource.rtype == SRV {
      if rdlength < 6 {
        return Ok(SrvRecord(None), next);
      }
      var priority, weight, port := Read16(data, offset), Read16(data, offset + 2), Read16(data, offset + 4);
      var target := DecodeName(data, offset + 6, ALL);
      match target {
        case Throws => return Throws;
        case Hangs => return Hangs;
        case Ok(name, _) => return Ok(SrvRecord(Some((priority, weight, port, name))), next);
      }
    } else if resource.rtype == TXT {
      var entries := DecodeTxt(data, offset, rdlength);
      return Ok(TxtRecord(entries), next);
    }
    return Ok(GenericRecord(resource), next);
  }

  /** Items read so far and what comes of the rest. */
  function Prefixed<T>(done: seq<T>, r: Result<seq<T>>): Result<seq<T>> {
    match r
    case Ok(xs, next) => Ok(done + xs, next)
    case Throws => Throws
    case Hangs => Hangs
  }

  lemma {:induction false} PrefixedNothing<T>(r: Result<seq<T>>)
    ensures Prefixed([], r) == r
  {
    assert r.Ok? ==> [] + r.value == r.value;
  }

  lemma {:induction false} ManyStep<T>(read: (seq<byte>, nat) -> Result<T>, data: seq<byte>, offset: nat, n: nat, done: seq<T>)
    ensures n == 0 ==> Prefixed(done, Many(read, data, offset, n)) == Ok(done, offset)
    ensures n > 0 ==>
              match read(data, offset)
              case Throws => Prefixed(done, Many(read, data, offset, n)) == Throws
              case Hangs => Prefixed(done, Many(read, data, offset, n)) == Hangs
              case Ok(x, at) =>
                Prefixed(done, Many(read, data, offset, n)) == Prefixed(done + [x], Many(read, data, at, n - 1))
  {
    if n == 0 {
      assert done + [] == done;
    } else if read(data, offset).Ok? {
      var r := Many(read, data, read(data, offset).next, n - 1);
      if r.Ok? {
        Associate(done, [read(data, offset).value], r.value);
      }
    }
  }

  method DecodeQuestions(data: seq<byte>, start: nat, count: nat) returns (r: Result<seq<Question>>)
    ensures r == Many(ReadQuestion, data, start, count)
  {
    hide Many, ReadQuestion;
    var offset := start;
    var done: seq<Question> := [];
    PrefixedNothing(Many(ReadQuestion, data, start, count));
    for i := 0 to count
      invariant Many(ReadQuestion, data, start, count) == Prefixed(done, Many(ReadQuestion, data, offset, count - i))
    {
      ManyStep(ReadQuestion, data, offset, count - i, done);
      var one := DecodeQuestion(data, offset);
      match one {
        case Throws => return Throws;
        case Hangs => return Hangs;
        case Ok(q, next) =>
          done := done + [q];
          offset := next;
      }
    }
    ManyStep(ReadQuestion, data, offset, 0, done);
    return Ok(done, offset);
  }

  method DecodeRecords(data: seq<byte>, start: nat, count: nat) returns (r: Result<seq<Record>>)
    ensures r == Many(ReadRecord, data, start, count)
  {
    hide Many, ReadRecord;
    var offset := start;
    var done: seq<Record> := [];
    PrefixedNothing(Many(ReadRecord, data, start, count));
    for i := 0 to count
      invariant Many(ReadRecord, data, start, count) == Prefixed(done, Many(ReadRecord, data, offset, count - i))
    {
      ManyStep(ReadRecord, data, offset, count - i, done);
      var one := DecodeResourceRecord(data, offset);
      match one {
        case Throws => return Throws;
        case Hangs => return Hangs;
        case Ok(q, next) =>
          done := done + [q];
          offset := next;
      }
    }
    ManyStep(ReadRecord, data, offset, 0, done);
    return Ok(done, offset);
  }

  method Decode(data: seq<byte>) returns (r: Decoding)
    ensures r == ReadMessage(data)
  {
    hide Many;
    if |data| < 12 {
      return Nothing;
    }
    var header := ReadHeader(data);
    var questions := DecodeQuestions(data, 12, Swap16(header.qdcount));
    if !questions.Ok? {
      return Failure(questions);
    }
    var answers := DecodeRecords(data, questions.next, Swap16(header.ancount));
    if !answers.Ok? {
      return Failure(answers);
    }
    var authority := DecodeRecords(data, answers.next, Swap16(header.nscount));
    if !authority.Ok? {
      return Failure(authority);
    }
    var additional := DecodeRecords(data, authority.next, Swap16(header.arcount));
    if !additional.Ok? {
      return Failure(additional);
    }
    return Decoded(DecodedMessage(header, questions.value, answers.value, authority.value, additional.value));
  }

  // ---- messages come back ------------------------------------------------------------------------------

  /** Where `x` has been written into a message, `image(x)` is read. */
  ghost predicate ReadsBack<T, U>(write: T -> Option<seq<byte>>, read: (seq<byte>, nat) -> Result<U>, image: T -> U, x: T) {
    && write(x).Some?
    && forall pre: seq<byte>, post: seq<byte> ::
         read(pre + write(x).value + post, |pre|) == Ok(image(x), |pre| + |write(x).value|)
  }

  function Images<T, U>(image: T -> U, items: seq<T>): (r: seq<U>)
    ensures |r| == |items|
  {
    if items == [] then [] else [image(items[0])] + Images(image, items[1..])
  }

  lemma {:induction false} AllFirst<T>(write: T -> Option<seq<byte>>, items: seq<T>)
    requires items != [] && write(items[0]).Some? && All(write, items[1..]).Some?
    ensures All(write, items) == Some(write(items[0]).value + All(write, items[1..]).value)
  {
    var rest := items[1..];
    if rest == [] {
      assert items[..|items| - 1] == [];
      assert [] + write(items[0]).value == write(items[0]).value + [];
    } else {
      var before := items[..|items| - 1];
      assert before[1..] == rest[..|rest| - 1];
      AllFirst(write, before);
      Associate(write(items[0]).value, All(write, before[1..]).value, write(items[|items| - 1]).value);
    }
  }

  /** A list written into a message is read back. */
  lemma {:induction false} ListReadsBack<T, U>(write: T -> Option<seq<byte>>, read: (seq<byte>, nat) -> Result<U>, image: T -> U,
                                               pre: seq<byte>, items: seq<T>, post: seq<byte>)
    requires forall x :: x in items ==> ReadsBack(write, read, image, x)
    ensures All(write, items).Some?
    ensures var w := All(write, items).value;
            Many(read, pre + w + post, |pre|, |items|) == Ok(Images(image, items), |pre| + |w|)
    decreases |items|
  {
    if items != [] {
      var x, rest := items[0], items[1..];
      assert ReadsBack(write, read, image, x);
      var first := write(x).value;
      ListReadsBack(write, read, image, pre + first, rest, post);
      AllFirst(write, items);
      var more := All(write, rest).value;
      assert pre + (first + more) + post == (pre + first) + more + post;
      assert pre + (first + more) + post == pre + first + (more + post);
      assert |pre + first| == |pre| + |first|;
    }
  }

  function AsDecoded(q: Question): Question {
    q.(name := Trimmed(q.name))
  }

  function AsGeneric(r: Resource): Record {
    GenericRecord(r.(name := Trimmed(r.name)))
  }

  /** The fixed part of a question, in place. */
  lemma {:induction false} QuestionPart(pre: seq<byte>, q: Question, post: seq<byte>)
    requires q.Valid()
    ensures var fixed := Be16(q.qtype) + Be16(q.qclass);
            var data, at := pre + fixed + post, |pre|;
            |fixed| == 4 && Read16(data, at) == q.qtype && Read16(data, at + 2) == q.qclass
  {
    var a, b := Be16(q.qtype), Be16(q.qclass);
    Be16RoundTrip(q.qtype);
    Be16RoundTrip(q.qclass);
    hide Be16, FromBe16;
    var data, at := pre + (a + b) + post, |pre|;
    assert data[at] == a[0] && data[at + 1] == a[1] && data[at + 2] == b[0] && data[at + 3] == b[1];
  }

  /** Bytes behind a name. */
  lemma {:induction false} Behind<T>(pre: seq<T>, name: seq<T>, fixed: seq<T>, post: seq<T>)
    ensures pre + (name + fixed) + post == pre + name + (fixed + post)
    ensures pre + (name + fixed) + post == (pre + name) + fixed + post
  {
  }

  lemma {:induction false} QuestionRead(pre: seq<byte>, q: Question, post: seq<byte>)
    requires q.Valid() && Proper(q.name)
    ensures QuestionBytes(q).Some?
    ensures ReadQuestion(pre + QuestionBytes(q).value + post, |pre|) == Ok(AsDecoded(q), |pre| + |QuestionBytes(q).value|)
  {
    hide Named, Encoded, Proper, Be16, Read16, Trimmed;
    var fixed := Be16(q.qtype) + Be16(q.qclass);
    NameRoundTrip(pre, q.name, fixed + post);
    var name := Encoded(q.name).value;
    Behind(pre, name, fixed, post);
    QuestionPart(pre + name, q, post);
  }

  /** A question with a proper name is read back wherever it is written. */
  lemma {:induction false} QuestionReadsBack(q: Question)
    requires q.Valid() && Proper(q.name)
    ensures ReadsBack(QuestionBytes, ReadQuestion, AsDecoded, q)
  {
    hide QuestionBytes, ReadQuestion, Proper;
    var none: seq<byte> := [];
    QuestionRead(none, q, none);
    forall pre: seq<byte>, post: seq<byte>
      ensures ReadQuestion(pre + QuestionBytes(q).value + post, |pre|) == Ok(AsDecoded(q), |pre| + |QuestionBytes(q).value|)
    {
      QuestionRead(pre, q, post);
    }
  }

  predicate IsSpecial(rtype: nat) {
    rtype == A || rtype == PTR || rtype == SRV || rtype == TXT
  }

  /** The fixed part of a record, in place. */
  lemma {:induction false} FixedPart(pre: seq<byte>, r: Resource, post: seq<byte>)
    requires r.Valid()
    ensures var data, at := pre + Fixed(r) + post, |pre|;
            && Read16(data, at) == r.rtype && Read16(data, at + 2) == r.rclass
            && Read16(data, at + 4) * 65536 + Read16(data, at + 6) == r.ttl
            && Read16(data, at + 8) == |r.data| % 65536
  {
    hide Be16, FromBe16;
    var a, b, c, d, e := Be16(r.rtype), Be16(r.rclass), Be16(r.ttl / 65536), Be16(r.ttl % 65536), Be16(|r.data|);
    Halves(r.ttl);
    Read16Back(r.rtype);
    Read16Back(r.rclass);
    Read16Back(r.ttl / 65536);
    Read16Back(r.ttl % 65536);
    Be16RoundTrip(|r.data|);
    FivePairs(pre, a, b, c, d, e, post);
  }

  lemma {:induction false} Read16Back(n: nat)
    requires n < 65536
    ensures FromBe16(Be16(n)[0], Be16(n)[1]) == n
  {
    Be16RoundTrip(n);
  }

  lemma {:induction false} Halves(n: nat)
    requires n < 65536 * 65536
    ensures n / 65536 < 65536 && n / 65536 * 65536 + n % 65536 == n
  {
  }

  lemma {:induction false} FivePairs<T>(pre: seq<T>, a: seq<T>, b: seq<T>, c: seq<T>, d: seq<T>, e: seq<T>, post: seq<T>)
    requires |a| == |b| == |c| == |d| == |e| == 2
    ensures var data, at := pre + (a + b + (c + d) + e) + post, |pre|;
            && data[at] == a[0] && data[at + 1] == a[1] && data[at + 2] == b[0] && data[at + 3] == b[1]
            && data[at + 4] == c[0] && data[at + 5] == c[1] && data[at + 6] == d[0] && data[at + 7] == d[1]
            && data[at + 8] == e[0] && data[at + 9] == e[1]
  {
    var fixed := a + b + (c + d) + e;
    assert forall i :: 0 <= i < 10 ==> (pre + fixed + post)[|pre| + i] == fixed[i];
  }

  /** What is read of a record with a proper name: of its data as much as the 16-bit length says. */
  lemma {:induction false} RecordRead(pre: seq<byte>, r: Resource, post: seq<byte>)
    requires r.Valid() && Proper(r.name)
    ensures ResourceBytes(r).Some?
    ensures var data, n := pre + ResourceBytes(r).value + post, |r.data| % 65536;
            var at := |pre| + |ResourceBytes(r).value| - |r.data|;
            && at + n <= |data|
            && ReadRecord(data, |pre|) == ReadBody(data, r.(name := Trimmed(r.name), data := r.data[..n]), at, n)
  {
    hide Named, Encoded, Proper, Be16, Read16, ReadBody, Trimmed;
    var n := |r.data| % 65536;
    var fixed := Fixed(r);
    NameRoundTrip(pre, r.name, fixed + r.data + post);
    var name := Encoded(r.name).value;
    Behind(pre, name, fixed + r.data, post);
    Behind(pre + name, [], fixed + r.data, post);
    Behind(pre + name, fixed, r.data, post);
    FixedPart(pre + name, r, r.data + post);
    hide Fixed;
    DataPart(pre + name + fixed, r.data, post, n);
  }

  /** The data of a record, in place. */
  lemma {:induction false} DataPart(pre: seq<byte>, data: seq<byte>, post: seq<byte>, n: nat)
    requires n <= |data|
    ensures (pre + data + post)[|pre|..|pre| + n] == data[..n]
  {
  }

  /** A record with a proper name is read back, wherever it is written, exactly if its data fits the 16-bit
    * length and its type is none of the four that lose their fields. */
  lemma {:induction false} RecordReadsBack(r: Resource)
    requires r.Valid() && Proper(r.name)
    ensures ReadsBack(ResourceBytes, ReadRecord, AsGeneric, r) <==> |r.data| < 65536 && !IsSpecial(r.rtype)
  {
    hide ResourceBytes, ReadRecord, Proper, Trimmed;
    var none: seq<byte> := [];
    RecordRead(none, r, none);
    if |r.data| < 65536 && !IsSpecial(r.rtype) {
      forall pre: seq<byte>, post: seq<byte>
        ensures ReadRecord(pre + ResourceBytes(r).value + post, |pre|) == Ok(AsGeneric(r), |pre| + |ResourceBytes(r).value|)
      {
        RecordRead(pre, r, post);
        assert r.data[..|r.data|] == r.data;
      }
    } else {
      var w := ResourceBytes(r).value;
      assert ReadRecord(none + w + none, |none|) != Ok(AsGeneric(r), |none| + |w|);
    }
  }

  lemma {:induction false} Le16RoundTrip(n: nat)
    requires n < 65536
    ensures FromLe16(Le16(n)[0], Le16(n)[1]) == n
  {
  }

  lemma {:induction false} HeaderRoundTrip(h: Header, rest: seq<byte>)
    requires h.Valid()
    ensures ReadHeader(HeaderBytes(h) + rest) == h
  {
    var a, b, c, d, e, f := Le16(h.id), Le16(h.flags), Le16(h.qdcount), Le16(h.ancount), Le16(h.nscount), Le16(h.arcount);
    Le16RoundTrip(h.id);
    Le16RoundTrip(h.flags);
    Le16RoundTrip(h.qdcount);
    Le16RoundTrip(h.ancount);
    Le16RoundTrip(h.nscount);
    Le16RoundTrip(h.arcount);
    hide Le16, FromLe16;
    var data := HeaderBytes(h) + rest;
    assert data[0] == a[0] && data[1] == a[1] && data[2] == b[0] && data[3] == b[1];
    assert data[4] == c[0] && data[5] == c[1] && data[6] == d[0] && data[7] == d[1];
    assert data[8] == e[0] && data[9] == e[1] && data[10] == f[0] && data[11] == f[1];
  }

  predicate QuestionsFit(items: seq<Question>) {
    |items| < 65536 && forall q :: q in items ==> q.Valid() && Proper(q.name)
  }

  predicate RecordsFit(items: seq<Resource>) {
    |items| < 65536 && forall r :: r in items ==> r.Valid() && Proper(r.name) && |r.data| < 65536 && !IsSpecial(r.rtype)
  }

  predicate Encodable(m: Message) {
    m.header.Valid() && QuestionsFit(m.questions) && RecordsFit(m.answers) && RecordsFit(m.authority) && RecordsFit(m.additional)
  }

  lemma {:induction false} QuestionsReadBack(pre: seq<byte>, items: seq<Question>, post: seq<byte>)
    requires QuestionsFit(items)
    ensures All(QuestionBytes, items).Some?
    ensures var w := All(QuestionBytes, items).value;
            Many(ReadQuestion, pre + w + post, |pre|, |items|) == Ok(Images(AsDecoded, items), |pre| + |w|)
  {
    forall q | q in items ensures ReadsBack(QuestionBytes, ReadQuestion, AsDecoded, q) {
      QuestionReadsBack(q);
    }
    hide ReadsBack;
    ListReadsBack(QuestionBytes, ReadQuestion, AsDecoded, pre, items, post);
  }

  lemma {:induction false} RecordsReadBack(pre: seq<byte>, items: seq<Resource>, post: seq<byte>)
    requires RecordsFit(items)
    ensures All(ResourceBytes, items).Some?
    ensures var w := All(ResourceBytes, items).value;
            Many(ReadRecord, pre + w + post, |pre|, |items|) == Ok(Images(AsGeneric, items), |pre| + |w|)
  {
    forall r | r in items ensures ReadsBack(ResourceBytes, ReadRecord, AsGeneric, r) {
      RecordReadsBack(r);
    }
    hide ReadsBack;
    ListReadsBack(ResourceBytes, ReadRecord, AsGeneric, pre, items, post);
  }

  lemma {:induction false} ReadInTurn(data: seq<byte>, h: Header, q: Result<seq<Question>>, a: Result<seq<Record>>, n: Result<seq<Record>>, x: Result<seq<Record>>)
    requires |data| >= 12 && ReadHeader(data) == h && q.Ok? && a.Ok? && n.Ok? && x.Ok?
    requires Many(ReadQuestion, data, 12, Swap16(h.qdcount)) == q
    requires Many(ReadRecord, data, q.next, Swap16(h.ancount)) == a
    requires Many(ReadRecord, data, a.next, Swap16(h.nscount)) == n
    requires Many(ReadRecord, data, n.next, Swap16(h.arcount)) == x
    ensures ReadMessage(data) == Decoded(DecodedMessage(h, q.value, a.value, n.value, x.value))
  {
    hide Many, ReadHeader, Swap16;
  }

  /** A message is read back as it was, but for the dots at the end of its names and the counts in its header,
    * which are those of its lists. */
  lemma {:induction false} MessageRoundTrip(m: Message)
    requires Encodable(m)
    ensures MessageBytes(m).Some?
    ensures ReadMessage(MessageBytes(m).value) ==
            Decoded(DecodedMessage(Counted(m), Images(AsDecoded, m.questions), Images(AsGeneric, m.answers),
                                   Images(AsGeneric, m.authority), Images(AsGeneric, m.additional)))
  {
    hide Many, All, Images, ReadHeader, ReadMessage, HeaderBytes, Swap16, QuestionsFit, RecordsFit;
    var none: seq<byte> := [];
    QuestionsReadBack(none, m.questions, none);
    RecordsReadBack(none, m.answers, none);
    RecordsReadBack(none, m.authority, none);
    RecordsReadBack(none, m.additional, none);
    var h := HeaderBytes(Counted(m));
    var q, a, n, x := All(QuestionBytes, m.questions).value, All(ResourceBytes, m.answers).value,
                      All(ResourceBytes, m.authority).value, All(ResourceBytes, m.additional).value;
    CountsRead(m, q + a + n + x);
    FiveParts(h, q, a, n, x);
    QuestionsReadBack(h, m.questions, a + n + x);
    RecordsReadBack(h + q, m.answers, n + x);
    RecordsReadBack(h + q + a, m.authority, x);
    RecordsReadBack(h + q + a + n, m.additional, none);
    var s := |h| + |q|;
    ReadInTurn(h + q + a + n + x, Counted(m), Ok(Images(AsDecoded, m.questions), s), Ok(Images(AsGeneric, m.answers), s + |a|),
               Ok(Images(AsGeneric, m.authority), s + |a| + |n|), Ok(Images(AsGeneric, m.additional), s + |a| + |n| + |x|));
  }

  lemma {:induction false} CountsRead(m: Message, rest: seq<byte>)
    requires Encodable(m)
    ensures var h := Counted(m);
            && ReadHeader(HeaderBytes(h) + rest) == h
            && Swap16(h.qdcount) == |m.questions| && Swap16(h.ancount) == |m.answers|
            && Swap16(h.nscount) == |m.authority| && Swap16(h.arcount) == |m.additional|
  {
    NetworkOrder(|m.questions|);
    NetworkOrder(|m.answers|);
    NetworkOrder(|m.authority|);
    NetworkOrder(|m.additional|);
    assert |m.questions| < 65536 && |m.answers| < 65536 && |m.authority| < 65536 && |m.additional| < 65536;
    hide Le16, ReadHeader, HeaderBytes, RecordsFit, QuestionsFit;
    HeaderRoundTrip(Counted(m), rest);
  }

  lemma {:induction false} FiveParts<T>(h: seq<T>, q: seq<T>, a: seq<T>, n: seq<T>, x: seq<T>)
    ensures var data := h + q + a + n + x;
            && data == h + (q + a + n + x)
            && data == h + q + (a + n + x)
            && data == h + q + a + (n + x)
            && data == h + q + a + n + x + []
  {
  }
}
