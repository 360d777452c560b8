/** `DnsResult`: a response message (section 4.1 of RFC 1035) parsed with a
    cursor over its octets: the header, one question and, when the response
    code is 0, the answer, authority and additional records in wire order. */
module Response {
  import opened Wire
  import opened Names
  import opened Headers
  import opened RecordData
  import opened Request

  /** A resource record as the parser lists it: `(name, qtype, cl, ttl, data)`. */
  datatype Record = Record(name: Bytes, rtype: u16, rclass: u16, ttl: u32, data: RData)

  /** Everything a parsed response holds. `errno` is the response code and
      `error` its name. */
  datatype Response = Response(header: Header, qname: Bytes, qtype: u16, qclass: u16,
                               errno: int, error: string,
                               answers: seq<Record>, authority: seq<Record>, additional: seq<Record>)

  /** `_extractQuestion` with the cursor at `pos`: the name, type and class and
      the cursor after them. */
  function QuestionAt(msg: Bytes, pos: nat): (r: Result<(Bytes, u16, u16, nat)>)
    ensures r.Ok? ==> pos + 5 <= r.value.3 <= |msg|
  {
    match NameFrom(msg, pos, msg)
    case Err(f) => Err(f)
    case Ok((qname, p)) =>
      match U16At(msg, p)
      case Err(f) => Err(f)
      case Ok(qtype) =>
        match U16At(msg, p + 2)
        case Err(f) => Err(f)
        case Ok(qclass) => Ok((qname, qtype, qclass, p + 4))
  }

  /** The fixed part of a record: owner name, type, class, TTL, data length
      and the position of the data. */
  datatype Fixed = Fixed(name: Bytes, rtype: u16, rclass: u16, ttl: u32, rdlen: u16, data: nat)

  /** The fixed part of a record at `pos`. */
  function RecordHead(msg: Bytes, pos: nat): (r: Result<Fixed>)
    ensures r.Ok? ==> pos + 11 <= |msg| && r.value.data <= |msg| && pos + 11 <= r.value.data
  {
    match NameFrom(msg, pos, msg)
    case Err(f) => Err(f)
    case Ok((name, p)) =>
      match U16At(msg, p)
      case Err(f) => Err(f)
      case Ok(rtype) =>
        match U16At(msg, p + 2)
        case Err(f) => Err(f)
        case Ok(rclass) =>
          match U32At(msg, p + 4)
          case Err(f) => Err(f)
          case Ok(ttl) =>
            match U16At(msg, p + 8)
            case Err(f) => Err(f)
            case Ok(rdlen) => Ok(Fixed(name, rtype, rclass, ttl, rdlen, p + 10))
  }

  /** One pass of the loop of `_extractData` with the cursor at `pos`: the fixed
      part, then the data (a slice that may come out short at the end of the
      message) and its decoding. Its fixed fields always lie inside the
      message; the cursor after it may not, when the data ran short. */
  function RecordAt(msg: Bytes, pos: nat): (r: Result<(Record, nat)>)
    ensures r.Ok? ==> pos + 11 <= |msg| && pos + 11 <= r.value.1
  {
    match RecordHead(msg, pos)
    case Err(f) => Err(f)
    case Ok(hd) => RecordWith(msg, hd)
  }

  /** The record with fixed part `hd`: its data is read as a slice of `rdlen`
      octets and decoded with the cursor after that slice. */
  function RecordWith(msg: Bytes, hd: Fixed): Result<(Record, nat)>
  {
    WithData(hd, RDataOf(msg, hd.data + hd.rdlen, Slice(msg, hd.data, hd.data + hd.rdlen), hd.rtype))
  }

  /** The record with fixed part `hd` and decoded data `d`. */
  function WithData(hd: Fixed, d: Result<(RData, nat)>): Result<(Record, nat)>
  {
    match d
    case Err(f) => Err(f)
    case Ok((data, next)) => Ok((Record(hd.name, hd.rtype, hd.rclass, hd.ttl, data), next))
  }

  /** A decoded record carries the name, type, class and TTL of its fixed part,
      its data is the decoding of the `rdlen` octets after the fixed part, and
      the cursor ends no earlier than the end of those octets. */
  lemma RecordOfFixed(msg: Bytes, hd: Fixed, rec: Record, next: nat)
    requires RecordWith(msg, hd) == Ok((rec, next))
    ensures rec.name == hd.name && rec.rtype == hd.rtype && rec.rclass == hd.rclass && rec.ttl == hd.ttl
    ensures RDataOf(msg, hd.data + hd.rdlen, Slice(msg, hd.data, hd.data + hd.rdlen), hd.rtype) == Ok((rec.data, next))
    ensures next >= hd.data + hd.rdlen
  {
    var cursor := hd.data + hd.rdlen;
    var raw := Slice(msg, hd.data, cursor);
    RecordWithData(msg, hd, cursor, raw);
    WithDataOk(hd, RDataOf(msg, cursor, raw, hd.rtype), rec, next);
  }

  /** A record built from a fixed part and decoded data holds the fields of
      the one and the data and cursor of the other. */
  lemma WithDataOk(hd: Fixed, d: Result<(RData, nat)>, rec: Record, next: nat)
    requires WithData(hd, d) == Ok((rec, next))
    ensures rec.name == hd.name && rec.rtype == hd.rtype && rec.rclass == hd.rclass && rec.ttl == hd.ttl
    ensures d == Ok((rec.data, next))
  {
  }

  /** A record is its fixed part followed by its data. */
  lemma RecordAtHead(msg: Bytes, pos: nat, hd: Fixed)
    requires RecordHead(msg, pos) == Ok(hd)
    ensures RecordAt(msg, pos) == RecordWith(msg, hd)
  {
  }

  /** The data of a record is the slice `raw` decoded with the cursor after it. */
  lemma RecordWithData(msg: Bytes, hd: Fixed, cursor: nat, raw: Bytes)
    requires cursor == hd.data + hd.rdlen && raw == Slice(msg, hd.data, cursor)
    ensures RecordWith(msg, hd) == WithData(hd, RDataOf(msg, cursor, raw, hd.rtype))
  {
  }

  /** `count` items read one after the other by `step` from `pos`: all of them
      and the position after the last, or the first failure. */
  function Repeat<T>(step: (Bytes, nat) -> Result<(T, nat)>, msg: Bytes, pos: nat, count: nat): (r: Result<(seq<T>, nat)>)
    ensures r.Ok? ==> |r.value.0| == count
    decreases count, 1
  {
    if count == 0 then Ok(([], pos)) else RepeatFrom(step, msg, pos, count)
  }

  /** A non-empty run: the first item, then the rest from where it ends. */
  function RepeatFrom<T>(step: (Bytes, nat) -> Result<(T, nat)>, msg: Bytes, pos: nat, count: nat): (r: Result<(seq<T>, nat)>)
    requires count > 0
    ensures r.Ok? ==> |r.value.0| == count
    decreases count, 0
  {
    match step(msg, pos)
    case Err(f) => Err(f)
    case Ok((x, p)) =>
      match Repeat(step, msg, p, count - 1)
      case Err(f) => Err(f)
      case Ok((rest, next)) => Ok(([x] + rest, next))
  }

  /** Items of at least 11 octets inside the message: a run of `count` of them
      takes at least `11 * count` octets and ends inside the message. */
  lemma {:induction false} RepeatBounds<T>(step: (Bytes, nat) -> Result<(T, nat)>, msg: Bytes, pos: nat, count: nat)
    requires forall p: nat :: step(msg, p).Ok? ==> p + 11 <= |msg| && p + 11 <= step(msg, p).value.1
    ensures Repeat(step, msg, pos, count).Ok? ==> pos + 11 * count <= Repeat(step, msg, pos, count).value.1
    ensures Repeat(step, msg, pos, count).Ok? && count > 0 ==> pos + 11 * count <= |msg|
    decreases count
  {
    if count > 0 && Repeat(step, msg, pos, count).Ok? {
      assert RepeatFrom(step, msg, pos, count).Ok?;
      var p := step(msg, pos).value.1;
      RepeatBounds(step, msg, p, count - 1);
    }
  }

  /** Reading `a + b` items is reading `a` and then `b` from where they end. */
  lemma {:induction false} RepeatAppend<T>(step: (Bytes, nat) -> Result<(T, nat)>, msg: Bytes, pos: nat, a: nat, b: nat)
    requires Repeat(step, msg, pos, a).Ok?
    requires Repeat(step, msg, Repeat(step, msg, pos, a).value.1, b).Ok?
    ensures var (first, p) := Repeat(step, msg, pos, a).value;
      var (second, q) := Repeat(step, msg, p, b).value;
      Repeat(step, msg, pos, a + b) == Ok((first + second, q))
    decreases a
  {
    if a > 0 {
      var (x, p) := step(msg, pos).value;
      var (first, pa) := Repeat(step, msg, p, a - 1).value;
      assert Repeat(step, msg, pos, a) == Ok(([x] + first, pa));
      var (second, q) := Repeat(step, msg, pa, b).value;
      RepeatAppend(step, msg, p, a - 1, b);
      assert a + b - 1 == (a - 1) + b;
      assert Repeat(step, msg, p, a + b - 1) == Ok((first + second, q));
      assert [x] + first + second == [x] + (first + second);
    } else {
      assert [] + Repeat(step, msg, pos, b).value.0 == Repeat(step, msg, pos, b).value.0;
    }
  }

  /** `count` records read one after the other from `pos`: all of them and the
      cursor after the last, or the first failure. Each record takes at least
      11 octets, so a run of records ends inside the message. */
  function Records(msg: Bytes, pos: nat, count: nat): (r: Result<(seq<Record>, nat)>)
    ensures r.Ok? ==> |r.value.0| == count && pos + 11 * count <= r.value.1
    ensures r.Ok? && count > 0 ==> pos + 11 * count <= |msg|
  {
    RepeatBounds(RecordAt, msg, pos, count);
    Repeat(RecordAt, msg, pos, count)
  }

  /** The answer, authority and additional sections, `an`, `ns` and `ar`
      records read one run after the other from `pos`. */
  function Sections(msg: Bytes, pos: nat, an: nat, ns: nat, ar: nat): (r: Result<(seq<Record>, seq<Record>, seq<Record>)>)
    ensures r.Ok? ==> |r.value.0| == an && |r.value.1| == ns && |r.value.2| == ar
  {
    match Records(msg, pos, an)
    case Err(f) => Err(f)
    case Ok((answers, p1)) =>
      match Records(msg, p1, ns)
      case Err(f) => Err(f)
      case Ok((authority, p2)) =>
        match Records(msg, p2, ar)
        case Err(f) => Err(f)
        case Ok((additional, _)) => Ok((answers, authority, additional))
  }

  /** `DnsResult(rawBuf)`: the header and the question; then, when the response
      code is 0 and only then, the three sections with exactly the counts the
      header gives. Every failure surfaces as `ResError('Invalid DNS result')`. */
  function ParseResponse(msg: Bytes): (r: Result<Response>)
    ensures r.Err? ==> r.fault == InvalidResult
    ensures r.Ok? ==> r.value.errno == r.value.header.flags.rcode && r.value.error == ErrStr(r.value.errno)
  {
    match HeaderAt(msg, 0)
    case Err(_) => Err(InvalidResult)
    case Ok(h) =>
      match QuestionAt(msg, 12)
      case Err(_) => Err(InvalidResult)
      case Ok((qname, qtype, qclass, p)) =>
        var rcode := h.flags.rcode;
        var base := Response(h, qname, qtype, qclass, rcode, ErrStr(rcode), [], [], []);
        if rcode != RCD_OK then Ok(base)
        else
          match Sections(msg, p, h.ancount, h.nscount, h.arcount)
          case Err(_) => Err(InvalidResult)
          case Ok((an, ns, ar)) => Ok(base.(answers := an, authority := ns, additional := ar))
  }

  /** Parsing a message whose header and question read as given. */
  lemma ParseOfParts(msg: Bytes, h: Header, qname: Bytes, qtype: u16, qclass: u16, p: nat)
    requires HeaderAt(msg, 0) == Ok(h)
    requires QuestionAt(msg, 12) == Ok((qname, qtype, qclass, p))
    ensures var rcode := h.flags.rcode;
      var base := Response(h, qname, qtype, qclass, rcode, ErrStr(rcode), [], [], []);
      && (rcode != RCD_OK ==> ParseResponse(msg) == Ok(base))
      && (rcode == RCD_OK ==>
            ParseResponse(msg) ==
              (match Sections(msg, p, h.ancount, h.nscount, h.arcount)
               case Err(_) => Err(InvalidResult)
               case Ok((an, ns, ar)) => Ok(base.(answers := an, authority := ns, additional := ar))))
  {
  }

  /** A message whose header or question does not read is rejected. */
  lemma ParseFailsEarly(msg: Bytes)
    requires HeaderAt(msg, 0).Err? || (HeaderAt(msg, 0).Ok? && QuestionAt(msg, 12).Err?)
    ensures ParseResponse(msg) == Err(InvalidResult)
  {
  }

  /** A message with a non-zero response code parses to its header and question
      alone. */
  lemma ParseWithoutSections(msg: Bytes, h: Header, qname: Bytes, qtype: u16, qclass: u16, p: nat)
    requires HeaderAt(msg, 0) == Ok(h) && h.flags.rcode != RCD_OK
    requires QuestionAt(msg, 12) == Ok((qname, qtype, qclass, p))
    ensures ParseResponse(msg) == Ok(Response(h, qname, qtype, qclass, h.flags.rcode, ErrStr(h.flags.rcode), [], [], []))
  {
  }

  /** A message with response code 0 parses to its header, question and the
      sections read after the question. */
  lemma ParseWithSections(msg: Bytes, h: Header, qname: Bytes, qtype: u16, qclass: u16, p: nat,
                          an: seq<Record>, ns: seq<Record>, ar: seq<Record>)
    requires HeaderAt(msg, 0) == Ok(h) && h.flags.rcode == RCD_OK
    requires QuestionAt(msg, 12) == Ok((qname, qtype, qclass, p))
    requires Sections(msg, p, h.ancount, h.nscount, h.arcount) == Ok((an, ns, ar))
    ensures ParseResponse(msg) == Ok(Response(h, qname, qtype, qclass, RCD_OK, ErrStr(RCD_OK), an, ns, ar))
  {
  }

  /** A message with response code 0 whose sections do not read is rejected. */
  lemma ParseSectionsFail(msg: Bytes, h: Header, qname: Bytes, qtype: u16, qclass: u16, p: nat)
    requires HeaderAt(msg, 0) == Ok(h) && h.flags.rcode == RCD_OK
    requires QuestionAt(msg, 12) == Ok((qname, qtype, qclass, p))
    requires Sections(msg, p, h.ancount, h.nscount, h.arcount).Err?
    ensures ParseResponse(msg) == Err(InvalidResult)
  {
  }

  // ---------------------------------------------------------------------------
  // Properties of the parser

  /** The sections are read only for response code 0: any other code gives a
      result with empty sections whatever follows the question, and with code 0
      each section holds exactly the number of records its count announces. */
  lemma RcodeGate(msg: Bytes)
    requires ParseResponse(msg).Ok?
    ensures var r := ParseResponse(msg).value;
      && (r.errno != RCD_OK ==> r.answers == [] && r.authority == [] && r.additional == [])
      && (r.errno == RCD_OK ==>
            |r.answers| == r.header.ancount && |r.authority| == r.header.nscount
            && |r.additional| == r.header.arcount)
  {
  }

  /** With a response code other than 0 only the header and the question
      decide whether parsing succeeds. */
  lemma ErrorResponseIgnoresSections(msg: Bytes, rest: Bytes)
    requires HeaderAt(msg, 0).Ok? && HeaderAt(msg, 0).value.flags.rcode != RCD_OK
    requires QuestionAt(msg, 12).Ok? && QuestionAt(msg, 12).value.3 == |msg|
    ensures ParseResponse(msg).Ok? && ParseResponse(msg + rest).Ok?
    ensures ParseResponse(msg + rest) == ParseResponse(msg)
  {
    PrefixStable(msg, rest);
  }

  /** The header and the question read the same from a message extended at
      its end. */
  lemma PrefixStable(msg: Bytes, rest: Bytes)
    requires HeaderAt(msg, 0).Ok?
    requires QuestionAt(msg, 12).Ok?
    ensures HeaderAt(msg + rest, 0) == HeaderAt(msg, 0)
    ensures QuestionAt(msg + rest, 12) == QuestionAt(msg, 12)
  {
    var m := msg + rest;
    U16AtExtend(msg, rest, 0);
    U16AtExtend(msg, rest, 2);
    U16AtExtend(msg, rest, 4);
    U16AtExtend(msg, rest, 6);
    U16AtExtend(msg, rest, 8);
    U16AtExtend(msg, rest, 10);
    var (qname, p) := NameFrom(msg, 12, msg).value;
    NameFromExtend(msg, rest, 12);
    U16AtExtend(msg, rest, p);
    U16AtExtend(msg, rest, p + 2);
  }

  lemma U16AtExtend(msg: Bytes, rest: Bytes, pos: nat)
    ensures U16At(msg, pos).Ok? ==> U16At(msg + rest, pos) == U16At(msg, pos)
  {
    if pos + 2 <= |msg| {
      assert (msg + rest)[pos..pos + 2] == msg[pos..pos + 2];
    }
  }

  /** A name that reads from a message reads the same from the message extended
      at its end. */
  lemma NameFromExtend(msg: Bytes, rest: Bytes, pos: nat)
    requires NameFrom(msg, pos, msg).Ok?
    ensures NameFrom(msg + rest, pos, msg + rest) == NameFrom(msg, pos, msg)
  {
    RunExtend(msg, rest, pos);
    match Run(msg, pos)
    case Ok((_, Root, _)) =>
    case Ok((_, Pointer(_, t), _)) => ChaseExtend(msg, rest, t, {});
  }

  lemma {:induction false} RunExtend(src: Bytes, rest: Bytes, pos: nat)
    requires Run(src, pos).Ok?
    ensures Run(src + rest, pos) == Run(src, pos)
    decreases |src| - pos
  {
    var s := src + rest;
    assert s[pos] == src[pos];
    if src[pos] >= 0xC0 {
      assert s[pos + 1] == src[pos + 1];
    } else if src[pos] != 0 {
      var next := pos + 1 + src[pos] as int;
      var chunk := src[pos + 1..next];
      assert Run(src, next).Ok?;
      var (labels, tail, end) := Run(src, next).value;
      RunExtend(src, rest, next);
      assert s[pos + 1..next] == chunk;
      RunLabelThen(src, pos, next, chunk, labels, tail, end);
      RunLabelThen(s, pos, next, chunk, labels, tail, end);
    }
  }

  lemma {:induction false} ChaseExtend(msg: Bytes, rest: Bytes, target: nat, visited: set<nat>)
    requires forall p :: p in visited ==> p < |msg|
    requires Chase(msg, target, visited).Ok?
    ensures Chase(msg + rest, target, visited) == Chase(msg, target, visited)
    decreases |msg| - |visited|
  {
    RunExtend(msg, rest, target);
    match Run(msg, target)
    case Ok((_, Root, _)) =>
    case Ok((_, Pointer(at, t), _)) =>
      BoundedSetSize(visited + {at}, |msg|);
      ChaseExtend(msg, rest, t, visited + {at});
  }

  /** A message shorter than the 12-octet header and a five-octet question is
      rejected. */
  lemma ShortResponse(msg: Bytes)
    requires |msg| < 12 + 5
    ensures ParseResponse(msg) == Err(InvalidResult)
  {
  }

  /** Each record of the sections takes at least 11 octets: sections that read
      hold at most `(|msg| - pos) / 11` records in all. */
  lemma SectionsSize(msg: Bytes, pos: nat, an: nat, ns: nat, ar: nat)
    requires Sections(msg, pos, an, ns, ar).Ok?
    ensures an + ns + ar > 0 ==> pos + 11 * (an + ns + ar) <= |msg|
  {
    var p1 := Records(msg, pos, an).value.1;
    var p2 := Records(msg, p1, ns).value.1;
    if ar > 0 {
      assert p2 + 11 * ar <= |msg|;
    } else if ns > 0 {
      assert p1 + 11 * ns <= |msg|;
    } else if an > 0 {
      assert pos + 11 * an <= |msg|;
    }
  }

  /** The three sections are one run of `an + ns + ar` records in wire order,
      cut after the answers and after the authority records. */
  lemma SectionsInWireOrder(msg: Bytes, pos: nat, an: nat, ns: nat, ar: nat)
    requires Sections(msg, pos, an, ns, ar).Ok?
    ensures var (answers, authority, additional) := Sections(msg, pos, an, ns, ar).value;
      var all := Records(msg, pos, an + ns + ar);
      all.Ok? && all.value.0 == answers + authority + additional
  {
    RepeatThree(RecordAt, msg, pos, an, ns, ar);
  }

  /** Three runs read one after the other are one run. */
  lemma RepeatThree<T>(step: (Bytes, nat) -> Result<(T, nat)>, msg: Bytes, pos: nat, a: nat, b: nat, c: nat)
    requires Repeat(step, msg, pos, a).Ok?
    requires Repeat(step, msg, Repeat(step, msg, pos, a).value.1, b).Ok?
    requires Repeat(step, msg, Repeat(step, msg, Repeat(step, msg, pos, a).value.1, b).value.1, c).Ok?
    ensures var (first, p1) := Repeat(step, msg, pos, a).value;
      var (second, p2) := Repeat(step, msg, p1, b).value;
      var (third, _) := Repeat(step, msg, p2, c).value;
      var all := Repeat(step, msg, pos, a + b + c);
      all.Ok? && all.value.0 == first + second + third
  {
    var p1 := Repeat(step, msg, pos, a).value.1;
    RepeatAppend(step, msg, p1, b, c);
    RepeatAppend(step, msg, pos, a, b + c);
    assert a + b + c == a + (b + c);
  }

  /** Reading `a + b` records is reading `a` and then `b` from where they end. */
  lemma RecordsAppend(msg: Bytes, pos: nat, a: nat, b: nat)
    requires Records(msg, pos, a).Ok?
    requires Records(msg, Records(msg, pos, a).value.1, b).Ok?
    ensures var (first, p) := Records(msg, pos, a).value;
      var (second, q) := Records(msg, p, b).value;
      Records(msg, pos, a + b) == Ok((first + second, q))
  {
    RepeatAppend(RecordAt, msg, pos, a, b);
  }

  /** The first record of a run, then the rest. */
  lemma RecordsStep(msg: Bytes, pos: nat, count: nat)
    requires count > 0
    ensures RecordAt(msg, pos).Err? ==> Records(msg, pos, count) == Err(RecordAt(msg, pos).fault)
    ensures RecordAt(msg, pos).Ok? ==>
      Records(msg, pos, count) == PrependRecords([RecordAt(msg, pos).value.0], Records(msg, RecordAt(msg, pos).value.1, count - 1))
  {
    assert Records(msg, pos, count) == RepeatFrom(RecordAt, msg, pos, count);
  }

  /** Round trip of a request: parsing the octets `DnsRequest` writes gives back
      its id, its flags cut to their widths, one question and no records, the
      non-empty parts of its name joined by '.', its type and its class. */
  lemma RequestRoundTrip(q: Query)
    requires RequestWire(q).Ok?
    ensures var h := RequestHeader(q);
      var rcode := Masked(h.flags).rcode;
      ParseResponse(RequestWire(q).value) ==
        Ok(Response(h.(flags := Masked(h.flags)), Join(Labels(Split(q.qname))), q.qtype, q.qclass,
                    rcode, ErrStr(rcode), [], [], []))
  {
    var h := RequestHeader(q);
    var enc := EncodedName(q.qname).value;
    var msg := RequestWire(q).value;
    RequestParts(q, h, enc, msg);
    var p := 12 + |enc| + 4;
    assert Sections(msg, p, 0, 0, 0) == Ok(([], [], []));
    ParseOfParts(msg, h.(flags := Masked(h.flags)), Join(Labels(Split(q.qname))), q.qtype, q.qclass, p);
  }

  /** The header and the question of a request read back. */
  lemma RequestParts(q: Query, h: Header, enc: Bytes, msg: Bytes)
    requires h == RequestHeader(q) && EncodedName(q.qname) == Ok(enc)
    requires msg == HeaderBytes(h) + enc + Be16(q.qtype) + Be16(q.qclass)
    ensures HeaderAt(msg, 0) == Ok(h.(flags := Masked(h.flags)))
    ensures QuestionAt(msg, 12) == Ok((Join(Labels(Split(q.qname))), q.qtype, q.qclass, 12 + |enc| + 4))
  {
    var hb := HeaderBytes(h);
    Windows4(msg, hb, enc, Be16(q.qtype), Be16(q.qclass));
    HeaderAtPrefix(msg, h);
    var p := 12 + |enc|;
    assert |msg| == p + 4;
    assert msg[p + 2..p + 4] == msg[p + 2..];
    NameRoundTrip(q.qname, enc, msg, 12);
    QuestionOfWindows(msg, Join(Labels(Split(q.qname))), p, q.qtype, q.qclass);
  }

  /** The question of a request, read where its name, type and class sit. */
  lemma QuestionOfWindows(msg: Bytes, qname: Bytes, p: nat, qtype: u16, qclass: u16)
    requires NameFrom(msg, 12, msg) == Ok((qname, p)) && p + 4 <= |msg|
    requires msg[p..p + 2] == Be16(qtype) && msg[p + 2..p + 4] == Be16(qclass)
    ensures QuestionAt(msg, 12) == Ok((qname, qtype, qclass, p + 4))
  {
    U16AtWindow(msg, p, qtype);
    U16AtWindow(msg, p + 2, qclass);
    QuestionOfParts(msg, 12, qname, p, qtype, qclass);
  }

  /** A question is its name followed by the type and the class. */
  lemma QuestionOfParts(msg: Bytes, pos: nat, qname: Bytes, p: nat, qtype: u16, qclass: u16)
    requires NameFrom(msg, pos, msg) == Ok((qname, p))
    requires U16At(msg, p) == Ok(qtype) && U16At(msg, p + 2) == Ok(qclass)
    ensures QuestionAt(msg, pos) == Ok((qname, qtype, qclass, p + 4))
  {
  }

  /** A canonical name (no empty parts, none longer than 63 octets) comes back
      exactly. */
  lemma CanonicalRequestRoundTrip(q: Query)
    requires forall k :: 0 <= k < |Split(q.qname)| ==> ShortLabel(Split(q.qname)[k])
    ensures RequestWire(q).Ok? && ParseResponse(RequestWire(q).value).Ok?
    ensures ParseResponse(RequestWire(q).value).value.qname == q.qname
    ensures ParseResponse(RequestWire(q).value).value.header.id == q.id
  {
    CanonicalNameRoundTrip(q.qname);
    RequestRoundTrip(q);
  }

  // ---------------------------------------------------------------------------
  // The parser object

  class DnsResult {
    const rawBuf: Bytes
    /** `_bp`, the cursor into `rawBuf`. */
    var bp: nat
    /** The id, flag fields and counts `_extractHeader` stores; `None` while
        they still hold the defaults (an id of -1 and zeros). */
    var header: Option<Header>
    var qname: Bytes
    var qtype: int
    var qclass: int
    var answers: seq<Record>
    var authority: seq<Record>
    var additional: seq<Record>
    var errno: int
    var error: string

    /** The fields hold the parsed response `r`. */
    ghost predicate Shows(r: Response)
      reads this
    {
      && header == Some(r.header)
      && qname == r.qname && qtype == r.qtype && qclass == r.qclass
      && errno == r.errno && error == r.error
      && answers == r.answers && authority == r.authority && additional == r.additional
    }

    /** The defaults `__init__` sets before parsing: the cursor at 0, no header,
        an empty name, type and class 0 and empty sections. */
    constructor (rawBuf: Bytes)
      ensures this.rawBuf == rawBuf && bp == 0 && header == None && qname == [] && qtype == 0 && qclass == 0
      ensures answers == [] && authority == [] && additional == []
    {
      this.rawBuf := rawBuf;
      bp := 0;
      header := None;
      qname := [];
      qtype, qclass := 0, 0;
      answers, authority, additional := [], [], [];
    }

    /** `_getBytes`: the slice at the cursor, which moves on by `num` even when
        the slice comes out short. */
    method GetBytes(num: nat) returns (b: Bytes)
      modifies this`bp
      ensures b == Slice(rawBuf, old(bp), old(bp) + num) && bp == old(bp) + num
      ensures 0 < num ==> (|b| == num <==> old(bp) + num <= |rawBuf|)
    {
      b := Slice(rawBuf, bp, bp + num);
      bp := bp + num;
    }

    /** `_get16bit()`: the 16-bit number at the cursor. */
    method Get16() returns (r: Result<u16>)
      modifies this`bp
      ensures r == U16At(rawBuf, old(bp)) && bp == old(bp) + 2
    {
      var s := GetBytes(2);
      if |s| != 2 {
        return Err(ShortRead);
      }
      return Ok((s[0] as int) * 0x100 + s[1]);
    }

    /** `_get32bit()`: the 32-bit number at the cursor. */
    method Get32() returns (r: Result<u32>)
      modifies this`bp
      ensures r == U32At(rawBuf, old(bp)) && bp == old(bp) + 4
    {
      var s := GetBytes(4);
      if |s| != 4 {
        return Err(ShortRead);
      }
      return Ok((((s[0] as int) * 0x100 + s[1]) * 0x100 + s[2]) * 0x100 + s[3]);
    }

    /** `_getName(offset, data, retOffset)`: a name read from `data`, from the
        message at `offset`, or from the cursor, which then moves past it. */
    method GetName(offset: Option<nat>, data: Bytes) returns (r: Result<NameRead>)
      modifies this`bp
      ensures r == Names.GetName(rawBuf, old(bp), offset, data)
      ensures r.Ok? ==> bp == r.value.cursor
    {
      var fromData := data != [];
      var onCursor := !fromData && offset.None?;
      var src := if fromData then data else rawBuf;
      var start: nat := if offset.Some? then offset.value else if fromData then 0 else bp;
      GetNameByNameFrom(rawBuf, bp, offset, data, src, start, onCursor);
      var read := ReadName(src, start, onCursor);
      if read.Err? {
        return Err(read.fault);
      }
      var (name, next) := read.value;
      return Ok(NameRead(name, if onCursor then None else Some(next), bp));
    }

    /** The loop of `_getName`: labels read from `src` at `start` until a zero
        octet or a pointer, a final pointer being resolved in the whole message.
        When `onCursor` says `src` is read through `_getBytes`, the cursor ends
        up just past the name. */
    method ReadName(src: Bytes, start: nat, onCursor: bool) returns (r: Result<(Bytes, nat)>)
      requires onCursor ==> src == rawBuf && start == bp
      modifies this`bp
      ensures r == NameFrom(src, start, rawBuf)
      ensures onCursor && r.Ok? ==> bp == r.value.1
      ensures !onCursor ==> bp == old(bp)
    {
      var run := ReadLabels(src, start);
      if run.Err? {
        return Err(run.fault);
      }
      var (name, tail, next) := run.value;
      if onCursor {
        bp := next;
      }
      if tail.Root? {
        return Ok((name, next));
      }
      var dom := Chase(rawBuf, tail.target, {});
      if dom.Err? {
        return Err(dom.fault);
      }
      name := Attach(name, dom.value);
      return Ok((name, next));
    }

    /** The labels of a name joined by '.', read up to and including a zero
        octet or a pointer, and the position after them. A label cut short by
        the end of `src` fails at once: the octet after it, which the loop
        reads next, is then missing. */
    static method ReadLabels(src: Bytes, start: nat) returns (r: Result<(Bytes, Tail, nat)>)
      ensures r == Joined(Run(src, start))
    {
      var pos := start;
      var name: Bytes := [];
      ghost var labels: seq<Bytes> := [];
      PrependNil(Run(src, pos));
      while true
        invariant start <= pos
        invariant name == Join(labels)
        invariant forall k :: 0 <= k < |labels| ==> labels[k] != []
        invariant Run(src, start) == Prepend(labels, Run(src, pos))
        decreases |src| - pos
      {
        var at := pos;
        if pos >= |src| {
          RunCutShort(src, start, at, labels);
          return Err(ShortRead);
        }
        var i := src[pos];
        pos := pos + 1;
        if i >= 0xC0 {
          // a pointer: its second octet holds the rest of the offset
          if pos >= |src| {
            RunCutShort(src, start, at, labels);
            return Err(ShortRead);
          }
          var j := src[pos];
          pos := pos + 1;
          var target := ((i as int) * 0x100 + j) % 0x4000;
          RunEndsAtPointer(src, start, at, labels, name, target);
          return Ok((name, Pointer(at, target), pos));
        } else if i == 0 {
          RunEndsAtRoot(src, start, at, labels, name);
          return Ok((name, Root, pos));
        } else {
          if pos + i > |src| {
            RunCutShort(src, start, at, labels);
            return Err(ShortRead);
          }
          var chunk := src[pos..pos + i];
          pos := pos + i;
          RunNextLabel(src, start, at, labels, chunk, pos);
          NameStep(labels, chunk);
          name := if name != [] then name + [DOT] + chunk else chunk;
          labels := labels + [chunk];
        }
      }
    }

    /** `_getSOA`: the two names, then the five counters just past the second. */
    method GetSoa(data: Bytes) returns (r: Result<RData>)
      modifies this`bp
      ensures r.Ok? <==> Soa(rawBuf, old(bp), data).Ok?
      ensures r.Ok? ==> r.value == Soa(rawBuf, old(bp), data).value.0 && bp == Soa(rawBuf, old(bp), data).value.1
      ensures r.Err? ==> r.fault == Soa(rawBuf, old(bp), data).fault
    {
      var m := GetName(None, data);
      if m.Err? {
        return Err(m.fault);
      }
      var rn := GetName(m.value.offset, data);
      if rn.Err? {
        return Err(rn.fault);
      }
      if rn.value.offset.None? {
        return Err(ShortRead);
      }
      var off := rn.value.offset.value;
      var serial := U32At(data, off);
      if serial.Err? { return Err(serial.fault); }
      var refresh := U32At(data, off + 4);
      if refresh.Err? { return Err(refresh.fault); }
      var retry := U32At(data, off + 8);
      if retry.Err? { return Err(retry.fault); }
      var expire := U32At(data, off + 12);
      if expire.Err? { return Err(expire.fault); }
      var minimum := U32At(data, off + 16);
      if minimum.Err? { return Err(minimum.fault); }
      return Ok(SoaData(m.value.name, rn.value.name, serial.value, refresh.value, retry.value,
                        expire.value, minimum.value));
    }

    /** `_procRawData(data, qtype, cl)`: the record data decoded by type; the
        A and AAAA texts are built octet by octet. */
    method ProcRawData(data: Bytes, qtype: int) returns (r: Result<RData>)
      modifies this`bp
      ensures r.Ok? <==> RDataOf(rawBuf, old(bp), data, qtype).Ok?
      ensures r.Ok? ==> r.value == RDataOf(rawBuf, old(bp), data, qtype).value.0
                        && bp == RDataOf(rawBuf, old(bp), data, qtype).value.1
      ensures r.Err? ==> r.fault == RDataOf(rawBuf, old(bp), data, qtype).fault
    {
      if IsNameType(qtype) {
        var n := GetName(None, data);
        if n.Err? {
          return Err(n.fault);
        }
        return Ok(NameData(n.value.name));
      } else if qtype == QT_MX {
        var pref := U16At(data, 0);
        if pref.Err? {
          return Err(pref.fault);
        }
        var n := GetName(None, data[2..]);
        if n.Err? {
          return Err(n.fault);
        }
        return Ok(MxData(pref.value, n.value.name));
      } else if qtype == QT_A {
        var ip: string := "";
        for i := 0 to |data|
          invariant ip == DottedQuad(data[..i])
        {
          assert data[..i + 1][..i] == data[..i];
          ip := ip + QuadPiece(i, data[i]);
        }
        assert data[..|data|] == data;
        return Ok(AddrText(ip));
      } else if qtype == QT_NULL || qtype == QT_TXT {
        return Ok(RawData(data));
      } else if qtype == QT_SOA {
        r := GetSoa(data);
      } else if qtype == QT_MINFO {
        var rm := GetName(None, data);
        if rm.Err? {
          return Err(rm.fault);
        }
        var em := GetName(rm.value.offset, data);
        if em.Err? {
          return Err(em.fault);
        }
        return Ok(MinfoData(rm.value.name, em.value.name));
      } else if qtype == QT_AAAA {
        var ipv6: string := "";
        for i := 0 to |data|
          invariant ipv6 == HexText(data[..i])
        {
          assert data[..i + 1][..i] == data[..i];
          ipv6 := ipv6 + HexPiece(i, data[i]);
        }
        assert data[..|data|] == data;
        return Ok(AddrText(ipv6));
      } else {
        return Err(Unsupported(qtype));
      }
    }

    /** The six 16-bit reads of `_extractHeader`, the second split into the
        flag fields. */
    method ReadHeader() returns (r: Result<Header>)
      modifies this`bp
      ensures r == HeaderAt(rawBuf, old(bp))
      ensures r.Ok? ==> bp == old(bp) + 12
    {
      ghost var start := bp;
      var i := Get16();
      if i.Err? { return Err(i.fault); }
      var flags := Get16();
      if flags.Err? { return Err(flags.fault); }
      var qd := Get16();
      if qd.Err? { return Err(qd.fault); }
      var an := Get16();
      if an.Err? { return Err(an.fault); }
      var ns := Get16();
      if ns.Err? { return Err(ns.fault); }
      var ar := Get16();
      if ar.Err? { return Err(ar.fault); }
      HeaderOfWords(rawBuf, start, i.value, flags.value, qd.value, an.value, ns.value, ar.value);
      return Ok(Header(i.value, UnpackFlags(flags.value), qd.value, an.value, ns.value, ar.value));
    }

    /** `_extractHeader`: the header at the cursor stored in the fields; it is
        also returned, or the failure when the message is too short. */
    method ExtractHeader() returns (r: Result<Header>)
      modifies this`bp, this`header
      ensures r == HeaderAt(rawBuf, old(bp))
      ensures r.Ok? ==> header == Some(r.value) && bp == old(bp) + 12
    {
      r := ReadHeader();
      if r.Err? {
        return;
      }
      header := Some(r.value);
    }

    /** `_extractQuestion`: the name, type and class at the cursor stored in
        the fields; they are also returned with the cursor after them. */
    method ExtractQuestion() returns (r: Result<(Bytes, u16, u16, nat)>)
      modifies this`bp, this`qname, this`qtype, this`qclass
      ensures r == QuestionAt(rawBuf, old(bp))
      ensures r.Ok? ==> qname == r.value.0 && qtype == r.value.1 && qclass == r.value.2 && bp == r.value.3
    {
      var n := GetName(None, []);
      if n.Err? {
        return Err(n.fault);
      }
      var t := Get16();
      if t.Err? {
        return Err(t.fault);
      }
      var c := Get16();
      if c.Err? {
        return Err(c.fault);
      }
      qname, qtype, qclass := n.value.name, t.value, c.value;
      return Ok((n.value.name, t.value, c.value, bp));
    }

    /** The reads of one pass of the loop of `_extractData` up to the data
        length. */
    method ExtractHead() returns (r: Result<Fixed>)
      modifies this`bp
      ensures r == RecordHead(rawBuf, old(bp))
      ensures r.Ok? ==> bp == r.value.data
    {
      var name := GetName(None, []);
      if name.Err? { return Err(name.fault); }
      var qtype := Get16();
      if qtype.Err? { return Err(qtype.fault); }
      var cl := Get16();
      if cl.Err? { return Err(cl.fault); }
      var ttl := Get32();
      if ttl.Err? { return Err(ttl.fault); }
      var rdlen := Get16();
      if rdlen.Err? { return Err(rdlen.fault); }
      return Ok(Fixed(name.value.name, qtype.value, cl.value, ttl.value, rdlen.value, bp));
    }

    /** One pass of the loop of `_extractData`, with `left` records still to
        read: the record at the cursor comes first among them and the other
        `left - 1` follow it, or its failure is the failure of them all. */
    method ExtractRecord(ghost left: nat) returns (r: Result<Record>)
      requires left > 0
      modifies this`bp
      ensures r.Ok? ==> RecordAt(rawBuf, old(bp)) == Ok((r.value, bp))
      ensures r.Err? ==> RecordAt(rawBuf, old(bp)) == Err(r.fault)
      ensures r.Ok? ==> Records(rawBuf, old(bp), left) == PrependRecords([r.value], Records(rawBuf, bp, left - 1))
      ensures r.Err? ==> Records(rawBuf, old(bp), left) == Err(r.fault)
    {
      ghost var start := bp;
      RecordsStep(rawBuf, start, left);
      var head := ExtractHead();
      if head.Err? { return Err(head.fault); }
      var hd := head.value;
      var rawData := GetBytes(hd.rdlen);
      RecordAtHead(rawBuf, start, hd);
      RecordWithData(rawBuf, hd, bp, rawData);
      var data := ProcRawData(rawData, hd.rtype);
      if data.Err? { return Err(data.fault); }
      return Ok(Record(hd.name, hd.rtype, hd.rclass, hd.ttl, data.value));
    }

    /** `_extractData(count, l)`: `count` records read at the cursor, in order;
        the caller stores them in the section's list. */
    method ExtractData(count: nat) returns (r: Result<seq<Record>>)
      modifies this`bp
      ensures r.Ok? <==> Records(rawBuf, old(bp), count).Ok?
      ensures r.Ok? ==> r.value == Records(rawBuf, old(bp), count).value.0
                        && bp == Records(rawBuf, old(bp), count).value.1
      ensures r.Err? ==> Records(rawBuf, old(bp), count) == Err(r.fault)
    {
      var l: seq<Record> := [];
      PrependRecordsNil(Records(rawBuf, bp, count));
      for i := 0 to count
        invariant Records(rawBuf, old(bp), count) == PrependRecords(l, Records(rawBuf, bp, count - i))
      {
        ghost var at := bp;
        var rec := ExtractRecord(count - i);
        if rec.Err? {
          assert Records(rawBuf, at, count - i) == Err(rec.fault);
          return Err(rec.fault);
        }
        PrependRecordsAppend(l, rec.value, Records(rawBuf, bp, count - i - 1));
        l := l + [rec.value];
      }
      return Ok(l);
    }

    /** The three calls of `_extractData` that fill the answer, authority and
        additional lists with the counts the header gave. */
    method ExtractSections() returns (ok: bool)
      requires header.Some? && answers == [] && authority == [] && additional == []
      modifies this`bp, this`answers, this`authority, this`additional
      ensures var h := header.value;
        ok <==> Sections(rawBuf, old(bp), h.ancount, h.nscount, h.arcount).Ok?
      ensures var h := header.value;
        ok ==> (answers, authority, additional) == Sections(rawBuf, old(bp), h.ancount, h.nscount, h.arcount).value
    {
      var h := header.value;
      ghost var start := bp;
      var an := ExtractData(h.ancount);
      if an.Err? {
        return false;
      }
      answers := answers + an.value;
      var ns := ExtractData(h.nscount);
      if ns.Err? {
        return false;
      }
      authority := authority + ns.value;
      var ar := ExtractData(h.arcount);
      if ar.Err? {
        return false;
      }
      additional := additional + ar.value;
      assert [] + an.value == an.value && [] + ns.value == ns.value && [] + ar.value == ar.value;
      return true;
    }

    /** `_getErrStr`: the name of `errno`. */
    method GetErrStr() returns (s: string)
      ensures s == ErrStr(errno)
      ensures s == "OK" <==> errno == RCD_OK
    {
      s := ErrStr(errno);
    }

    /** The first steps of `__init__` from the start of the message: the
        header and the question, then the response code and its name. */
    method ParseHead() returns (r: Result<(Header, Bytes, u16, u16, nat)>)
      requires bp == 0
      modifies this`bp, this`header, this`qname, this`qtype, this`qclass, this`errno, this`error
      ensures r.Err? <==> HeaderAt(rawBuf, 0).Err? || (HeaderAt(rawBuf, 0).Ok? && QuestionAt(rawBuf, 12).Err?)
      ensures r.Ok? ==>
        var (h, qn, qt, qc, p) := r.value;
        && HeaderAt(rawBuf, 0) == Ok(h) && QuestionAt(rawBuf, 12) == Ok((qn, qt, qc, p))
        && header == Some(h) && qname == qn && qtype == qt && qclass == qc && bp == p
        && errno == h.flags.rcode && error == ErrStr(errno)
    {
      var h := ExtractHeader();
      if h.Err? {
        return Err(h.fault);
      }
      var question := ExtractQuestion();
      if question.Err? {
        return Err(question.fault);
      }
      var (qn, qt, qc, p) := question.value;
      errno := header.value.flags.rcode;
      error := GetErrStr();
      return Ok((h.value, qn, qt, qc, p));
    }

    /** `DnsResult(rawBuf)`: the defaults, the header and the question, the
        response code and its name and, for code 0 only, the three sections;
        any failure becomes `ResError('Invalid DNS result')`. */
    static method New(rawBuf: Bytes) returns (r: Result<DnsResult>)
      ensures r.Ok? <==> ParseResponse(rawBuf).Ok?
      ensures r.Err? ==> r.fault == InvalidResult
      ensures r.Ok? ==> fresh(r.value) && r.value.rawBuf == rawBuf && r.value.Shows(ParseResponse(rawBuf).value)
    {
      var res := new DnsResult(rawBuf);
      var head := res.ParseHead();
      if head.Err? {
        ParseFailsEarly(rawBuf);
        return Err(InvalidResult);
      }
      var (h, qname, qtype, qclass, p) := head.value;
      if res.errno == RCD_OK {
        var ok := res.ExtractSections();
        if !ok {
          ParseSectionsFail(rawBuf, h, qname, qtype, qclass, p);
          return Err(InvalidResult);
        }
        ParseWithSections(rawBuf, h, qname, qtype, qclass, p, res.answers, res.authority, res.additional);
      } else {
        ParseWithoutSections(rawBuf, h, qname, qtype, qclass, p);
      }
      return Ok(res);
    }
  }

  /** A run cut short at `pos`, by the end of `src` where an octet, the second
      octet of a pointer or the rest of a label was due. */
  lemma RunCutShort(src: Bytes, start: nat, pos: nat, labels: seq<Bytes>)
    requires Run(src, start) == Prepend(labels, Run(src, pos))
    requires pos >= |src| || (src[pos] >= 0xC0 && pos + 1 >= |src|) || (0 < src[pos] < 0xC0 && pos + 1 + src[pos] > |src|)
    ensures Joined(Run(src, start)) == Err(ShortRead)
  {
    assert Run(src, pos) == Err(ShortRead);
  }

  /** A run that ends with the zero octet at `pos`. */
  lemma RunEndsAtRoot(src: Bytes, start: nat, pos: nat, labels: seq<Bytes>, name: Bytes)
    requires Run(src, start) == Prepend(labels, Run(src, pos))
    requires pos < |src| && src[pos] == 0
    requires name == Join(labels)
    ensures Joined(Run(src, start)) == Ok((name, Root, pos + 1))
  {
    assert Run(src, pos) == Ok(([], Root, pos + 1));
    assert labels + [] == labels;
  }

  /** A run that ends with the pointer at `pos`. */
  lemma RunEndsAtPointer(src: Bytes, start: nat, pos: nat, labels: seq<Bytes>, name: Bytes, target: nat)
    requires Run(src, start) == Prepend(labels, Run(src, pos))
    requires pos + 1 < |src| && src[pos] >= 0xC0
    requires target == TargetOf(src, pos)
    requires name == Join(labels)
    ensures Joined(Run(src, start)) == Ok((name, Pointer(pos, target), pos + 2))
  {
    assert Run(src, pos) == Ok(([], Pointer(pos, target), pos + 2));
    assert labels + [] == labels;
  }

  /** A run that goes on with the label at `pos`. */
  lemma RunNextLabel(src: Bytes, start: nat, pos: nat, labels: seq<Bytes>, chunk: Bytes, next: nat)
    requires Run(src, start) == Prepend(labels, Run(src, pos))
    requires pos < |src| && 0 < src[pos] < 0xC0 && pos + 1 + src[pos] <= |src|
    requires next == pos + 1 + src[pos as int] as int
    requires chunk == src[pos + 1..pos + 1 + src[pos]]
    ensures Run(src, start) == Prepend(labels + [chunk], Run(src, next))
  {
    RunLabel(src, pos);
    PrependAppend(labels, chunk, Run(src, next));
  }

  /** One label, then the rest of the run. */
  lemma RunLabel(src: Bytes, pos: nat)
    requires pos < |src| && 0 < src[pos] < 0xC0 && pos + 1 + src[pos] <= |src|
    ensures Run(src, pos) == Prepend([src[pos + 1..pos + 1 + src[pos]]], Run(src, pos + 1 + src[pos]))
  {
  }

  /** `qname = '%s.%s' % (qname, chunk)` for a non-empty name, `qname = chunk`
      otherwise, is joining one more label. */
  lemma NameStep(labels: seq<Bytes>, chunk: Bytes)
    requires forall k :: 0 <= k < |labels| ==> labels[k] != []
    ensures Join(labels + [chunk]) == if Join(labels) != [] then Join(labels) + [DOT] + chunk else chunk
  {
    JoinEmpty(labels);
    if labels != [] {
      JoinSnoc(labels, chunk);
    }
  }

  /** `_getName` decodes the name in its source, `data` or the message, from its
      start position; only the cursor mode reports no offset and moves the
      cursor. */
  lemma GetNameByNameFrom(msg: Bytes, cursor: nat, offset: Option<nat>, data: Bytes,
                          src: Bytes, start: nat, onCursor: bool)
    requires src == (if data != [] then data else msg)
    requires onCursor == (data == [] && offset.None?)
    requires start == (if offset.Some? then offset.value else if data != [] then 0 else cursor)
    ensures Names.GetName(msg, cursor, offset, data) ==
      match NameFrom(src, start, msg)
      case Err(f) => Err(f)
      case Ok((name, next)) =>
        Ok(NameRead(name, if onCursor then None else Some(next), if onCursor then next else cursor))
  {
  }

  /** Labels read before the rest of a run. */
  function Prepend(labels: seq<Bytes>, r: Result<(seq<Bytes>, Tail, nat)>): Result<(seq<Bytes>, Tail, nat)>
  {
    match r
    case Err(f) => Err(f)
    case Ok((ls, t, n)) => Ok((labels + ls, t, n))
  }

  lemma PrependNil(r: Result<(seq<Bytes>, Tail, nat)>)
    ensures Prepend([], r) == r
  {
    if r.Ok? {
      assert [] + r.value.0 == r.value.0;
    }
  }

  lemma PrependAppend(labels: seq<Bytes>, chunk: Bytes, r: Result<(seq<Bytes>, Tail, nat)>)
    ensures Prepend(labels, Prepend([chunk], r)) == Prepend(labels + [chunk], r)
  {
    if r.Ok? {
      assert labels + ([chunk] + r.value.0) == (labels + [chunk]) + r.value.0;
    }
  }

  /** A run with its labels joined by '.'. */
  function Joined(r: Result<(seq<Bytes>, Tail, nat)>): Result<(Bytes, Tail, nat)>
  {
    match r
    case Err(f) => Err(f)
    case Ok((labels, tail, next)) => Ok((Join(labels), tail, next))
  }

  /** Records read before the rest of a run. */
  function PrependRecords(recs: seq<Record>, r: Result<(seq<Record>, nat)>): Result<(seq<Record>, nat)>
  {
    match r
    case Err(f) => Err(f)
    case Ok((rs, n)) => Ok((recs + rs, n))
  }

  lemma PrependRecordsNil(r: Result<(seq<Record>, nat)>)
    ensures PrependRecords([], r) == r
  {
    if r.Ok? {
      assert [] + r.value.0 == r.value.0;
    }
  }

  lemma PrependRecordsAppend(recs: seq<Record>, rec: Record, r: Result<(seq<Record>, nat)>)
    ensures PrependRecords(recs, PrependRecords([rec], r)) == PrependRecords(recs + [rec], r)
  {
    if r.Ok? {
      assert recs + ([rec] + r.value.0) == (recs + [rec]) + r.value.0;
    }
  }
}
