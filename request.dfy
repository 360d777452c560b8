/** `DnsRequest`: a query message (section 4.1 of RFC 1035) written into an
    octet buffer, header first and then the single question. */
module Request {
  import opened Wire
  import opened Names
  import opened Headers

  /** What a caller asks for. The id, chosen at random by the source, is an
      input here; the flag fields are integers that packing masks. */
  datatype Query = Query(id: u16, qname: Bytes, qtype: u16, qclass: u16,
                         qr: int, opcode: int, aa: int, tc: int, rd: int, ra: int, rcode: int)

  /** The header of a request: the caller's flags with `z` zero, one question
      and no records. */
  function RequestHeader(q: Query): (h: Header)
    ensures h.id == q.id && h.qdcount == 1 && h.ancount == 0 && h.nscount == 0 && h.arcount == 0
  {
    Header(q.id, Flags(q.qr, q.opcode, q.aa, q.tc, q.rd, q.ra, 0, q.rcode), 1, 0, 0, 0)
  }

  /** The octets of the request for `q`, or the error its name raises. */
  function RequestWire(q: Query): (r: Result<Bytes>)
    ensures r.Err? ==> r.fault.LabelTooLong? && |r.fault.part| > 63
    ensures r.Ok? ==> 17 <= |r.value| && r.value[|r.value| - 4..] == Be16(q.qtype) + Be16(q.qclass)
  {
    match EncodedName(q.qname)
    case Err(f) => Err(f)
    case Ok(enc) => Ok(HeaderBytes(RequestHeader(q)) + enc + Be16(q.qtype) + Be16(q.qclass))
  }

  /** A request is built exactly when no part of its name is longer than 63
      octets. It is then the 12-octet header, the encoded name and the 16-bit
      type and class: 12 + |encoded name| + 4 octets. */
  lemma RequestLayout(q: Query)
    ensures RequestWire(q).Ok? <==> forall k :: 0 <= k < |Split(q.qname)| ==> |Split(q.qname)[k]| <= 63
    ensures RequestWire(q).Err? ==> RequestWire(q).fault.LabelTooLong? && |RequestWire(q).fault.part| > 63
    ensures RequestWire(q).Ok? ==>
      var b := RequestWire(q).value;
      var enc := EncodedName(q.qname).value;
      && |b| == 12 + |enc| + 4
      && b[..12] == HeaderBytes(RequestHeader(q))
      && b[12..12 + |enc|] == enc
      && b[12 + |enc|..] == Be16(q.qtype) + Be16(q.qclass)
  {
    EncodedNameSpec(q.qname);
    EncodePartsSpec(Split(q.qname));
    if RequestWire(q).Ok? {
      var b := RequestWire(q).value;
      var enc := EncodedName(q.qname).value;
      assert b == HeaderBytes(RequestHeader(q)) + enc + (Be16(q.qtype) + Be16(q.qclass));
    }
  }

  class DnsRequest {
    /** The message written so far. */
    var buf: Bytes
    const qname: Bytes
    const qtype: u16
    const qclass: u16
    const id: u16
    const qr: int
    const opcode: int
    const aa: int
    const tc: int
    const rd: int
    const ra: int
    const z: int
    const rcode: int
    const qdcount: u16
    const ancount: u16
    const nscount: u16
    const arcount: u16

    /** The query these fields describe. */
    function Asked(): Query
    {
      Query(id, qname, qtype, qclass, qr, opcode, aa, tc, rd, ra, rcode)
    }

    /** The request is complete: its buffer holds the whole message. */
    ghost predicate Built()
      reads this
    {
      RequestWire(Asked()).Ok? && buf == RequestWire(Asked()).value
    }

    /** The first half of `__init__`: the fields, with `z` zero, one question
      and no records, and the header written into an empty buffer. */
    constructor Init(q: Query)
      ensures Asked() == q && z == 0
      ensures qdcount == 1 && ancount == 0 && nscount == 0 && arcount == 0
      ensures buf == HeaderBytes(RequestHeader(q))
    {
      qname, qtype, qclass, id := q.qname, q.qtype, q.qclass, q.id;
      qr, opcode, aa, tc, rd, ra, rcode := q.qr, q.opcode, q.aa, q.tc, q.rd, q.ra, q.rcode;
      z := 0;
      qdcount, ancount, nscount, arcount := 1, 0, 0, 0;
      buf := [];
      new;
      AddHeader();
    }

    /** `_addHeader`: appends the id, the packed flags and the four counts. */
    method AddHeader()
      modifies this`buf
      ensures buf == old(buf) + HeaderBytes(Header(id, Flags(qr, opcode, aa, tc, rd, ra, z, rcode),
                                                   qdcount, ancount, nscount, arcount))
    {
      buf := buf + Be16(id);
      buf := buf + Be16(PackFlags(Flags(qr, opcode, aa, tc, rd, ra, z, rcode)));
      buf := buf + Be16(qdcount);
      buf := buf + Be16(ancount);
      buf := buf + Be16(nscount);
      buf := buf + Be16(arcount);
    }

    /** `_getName`: the loop over the dot-separated parts of `name`, raising at
        the first part longer than 63 octets. */
    static method EncodeName(name: Bytes) returns (r: Result<Bytes>)
      ensures r == EncodedName(name)
    {
      var parts := Split(name);
      var ret: Bytes := [];
      for k := 0 to |parts|
        invariant EncodeParts(parts[..k]) == Ok(ret)
      {
        var part := parts[k];
        assert parts[..k + 1][..k] == parts[..k];
        if part != [] {
          var l := |part|;
          if l > 63 {
            EncodePartsFailsEarly(parts, k + 1);
            return Err(LabelTooLong(part));
          }
          ret := ret + [l as byte] + part;
        }
      }
      assert parts[..|parts|] == parts;
      ret := ret + [0];
      return Ok(ret);
    }

    /** `_addQuestion`: appends the encoded name, the type and the class; when
        the name raises, nothing is appended. */
    method AddQuestion() returns (r: Result<()>)
      modifies this`buf
      ensures r.Ok? <==> EncodedName(qname).Ok?
      ensures r.Err? ==> r.fault == EncodedName(qname).fault && buf == old(buf)
      ensures r.Ok? ==> buf == old(buf) + EncodedName(qname).value + Be16(qtype) + Be16(qclass)
    {
      var enc := EncodeName(qname);
      if enc.Err? {
        return Err(enc.fault);
      }
      buf := buf + enc.value;
      buf := buf + Be16(qtype);
      buf := buf + Be16(qclass);
      return Ok(());
    }

    /** `DnsRequest(...)`: a built request, or the error its name raises. */
    static method New(q: Query) returns (r: Result<DnsRequest>)
      ensures r.Ok? <==> RequestWire(q).Ok?
      ensures r.Err? ==> r.fault == RequestWire(q).fault
      ensures r.Ok? ==> fresh(r.value) && r.value.Asked() == q && r.value.Built()
    {
      var req := new DnsRequest.Init(q);
      var added := req.AddQuestion();
      if added.Err? {
        return Err(added.fault);
      }
      assert req.buf == HeaderBytes(RequestHeader(q)) + EncodedName(q.qname).value + Be16(q.qtype) + Be16(q.qclass);
      return Ok(req);
    }

    /** `getBuf`: the message, 12 + |encoded name| + 4 octets. */
    method GetBuf() returns (b: Bytes)
      requires Built()
      ensures RequestWire(Asked()).Ok? && b == RequestWire(Asked()).value
      ensures |b| == 12 + |EncodedName(qname).value| + 4
    {
      RequestLayout(Asked());
      b := buf;
    }
  }
}
