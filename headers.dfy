/** The 12-octet message header of section 4.1.1 of RFC 1035: the flags word
    packed by `DnsRequest._addHeader` and unpacked by `DnsResult._extractHeader`,
    and the names `DnsResult._getErrStr` gives the response codes. */
module Headers {
  import opened Wire

  // Response codes (section 4.1.1 of RFC 1035)
  const RCD_OK := 0
  const RCD_FRMT_ERR := 1
  const RCD_SERVFAIL := 2
  const RCD_NAME_ERR := 3
  const RCD_NOT_IMPL := 4
  const RCD_REFUSED := 5

  /** The fields of the flags word. They are Python integers: a request takes
      whatever the caller passes and masks it when packing. */
  datatype Flags = Flags(qr: int, opcode: int, aa: int, tc: int, rd: int, ra: int, z: int, rcode: int)

  datatype Header = Header(id: u16, flags: Flags, qdcount: u16, ancount: u16, nscount: u16, arcount: u16)

  /** Each field within its width: one bit for qr, aa, tc, rd and ra, three for
      z, four for opcode and rcode. */
  predicate FitsWidths(f: Flags)
  {
    && 0 <= f.qr < 2 && 0 <= f.opcode < 16 && 0 <= f.aa < 2 && 0 <= f.tc < 2
    && 0 <= f.rd < 2 && 0 <= f.ra < 2 && 0 <= f.z < 8 && 0 <= f.rcode < 16
  }

  /** Each field cut to its width. On Python integers `x & (2^k - 1)` is the
      floored `x mod 2^k`, which is Dafny's `%` for a positive modulus. */
  function Masked(f: Flags): (m: Flags)
    ensures FitsWidths(m)
  {
    Flags(f.qr % 2, f.opcode % 16, f.aa % 2, f.tc % 2, f.rd % 2, f.ra % 2, f.z % 8, f.rcode % 16)
  }

  /** The flags word `(qr & 1) << 15 | (opcode & 15) << 11 | (aa & 1) << 10 |
      (tc & 1) << 9 | (rd & 1) << 8 | (ra & 1) << 7 | (z & 7) << 4 | (rcode & 15)`.
      The shifted fields occupy disjoint bits, so or-ing them adds them, and
      unpacking the word gives back every field cut to its width:
      out-of-range inputs are masked, not rejected. */
  function PackFlags(f: Flags): (w: u16)
    ensures UnpackFlags(w) == Masked(f)
  {
    var m := Masked(f);
    var w := m.qr * 0x8000 + m.opcode * 0x800 + m.aa * 0x400 + m.tc * 0x200
      + m.rd * 0x100 + m.ra * 0x80 + m.z * 0x10 + m.rcode;
    // the fields above each shift, as one number
    var h1 := m.qr;
    var h2 := h1 * 16 + m.opcode;
    var h3 := h2 * 2 + m.aa;
    var h4 := h3 * 2 + m.tc;
    var h5 := h4 * 2 + m.rd;
    var h6 := h5 * 2 + m.ra;
    var h7 := h6 * 8 + m.z;
    FieldOf(w, 0, m.qr, w - m.qr * 0x8000, 2, 0x8000);
    FieldOf(w, h1, m.opcode, w - h2 * 0x800, 16, 0x800);
    FieldOf(w, h2, m.aa, w - h3 * 0x400, 2, 0x400);
    FieldOf(w, h3, m.tc, w - h4 * 0x200, 2, 0x200);
    FieldOf(w, h4, m.rd, w - h5 * 0x100, 2, 0x100);
    FieldOf(w, h5, m.ra, w - h6 * 0x80, 2, 0x80);
    FieldOf(w, h6, m.z, m.rcode, 8, 0x10);
    DivModSplit(h7, m.rcode, 16);
    w
  }

  /** The fields of a flags word: `(flags >> 15) & 1`, `(flags >> 11) & 15`,
      ..., `flags & 15`. */
  function UnpackFlags(w: u16): (f: Flags)
    ensures FitsWidths(f)
  {
    Flags((w / 0x8000) % 2, (w / 0x800) % 16, (w / 0x400) % 2, (w / 0x200) % 2,
          (w / 0x100) % 2, (w / 0x80) % 2, (w / 0x10) % 8, w % 16)
  }

  /** Splitting a number at a power of two: `hi * k + lo` with `lo < k`. */
  lemma DivModSplit(hi: nat, lo: nat, k: nat)
    requires 0 < k && lo < k
    ensures (hi * k + lo) / k == hi && (hi * k + lo) % k == lo
  {
    var n := hi * k + lo;
    var q := n / k;
    assert n == q * k + n % k;
    assert q > hi ==> q * k >= (hi + 1) * k;
    assert q < hi ==> q * k <= (hi - 1) * k;
  }

  /** The field of width `kp` at shift `sp` of a word made of bits above it
      (`hi`), the field (`f`) and bits below it (`lo`). */
  lemma FieldOf(w: int, hi: nat, f: nat, lo: nat, kp: nat, sp: nat)
    requires 0 < kp && 0 < sp && f < kp && lo < sp
    requires w == (hi * kp + f) * sp + lo
    ensures (w / sp) % kp == f
  {
    DivModSplit(hi * kp + f, lo, sp);
    DivModSplit(hi, f, kp);
  }

  /** Every 16-bit word is the packing of its own fields: unpacking loses nothing. */
  lemma {:induction false} PackUnpackFlags(w: u16)
    ensures PackFlags(UnpackFlags(w)) == w
  {
    // the digits of w, least significant field first
    var rcode, w1 := w % 16, w / 16;
    var z, w2 := w1 % 8, w1 / 8;
    var ra, w3 := w2 % 2, w2 / 2;
    var rd, w4 := w3 % 2, w3 / 2;
    var tc, w5 := w4 % 2, w4 / 2;
    var aa, w6 := w5 % 2, w5 / 2;
    var opcode, qr := w6 % 16, w6 / 16;
    assert w == w1 * 16 + rcode && w1 == w2 * 8 + z && w2 == w3 * 2 + ra;
    assert w3 == w4 * 2 + rd && w4 == w5 * 2 + tc && w5 == w6 * 2 + aa;
    assert w6 == qr * 16 + opcode && qr < 2;
    var f := Flags(qr, opcode, aa, tc, rd, ra, z, rcode);
    MaskedFits(f);
    assert PackFlags(f) == w;
  }

  /** Packing is injective on fields within their widths. */
  lemma PackFlagsInjective(f: Flags, g: Flags)
    requires FitsWidths(f) && FitsWidths(g)
    requires PackFlags(f) == PackFlags(g)
    ensures f == g
  {
    MaskedFits(f);
    MaskedFits(g);
  }

  /** Masking leaves fields that already fit their widths unchanged. */
  lemma MaskedFits(f: Flags)
    requires FitsWidths(f)
    ensures Masked(f) == f
  {
  }

  /** The header as `_addHeader` writes it: id, flags word and the four
      counts, each 16 bits big-endian. */
  function HeaderBytes(h: Header): (b: Bytes)
    ensures |b| == 12
  {
    Be16(h.id) + Be16(PackFlags(h.flags)) + Be16(h.qdcount)
      + Be16(h.ancount) + Be16(h.nscount) + Be16(h.arcount)
  }

  /** `_extractHeader` with the cursor at `pos`: six 16-bit words, the second
      split into the flags, when all twelve octets are there. */
  function HeaderAt(msg: Bytes, pos: nat): (r: Result<Header>)
    ensures r.Ok? <==> pos + 12 <= |msg|
    ensures r.Ok? ==> FitsWidths(r.value.flags)
  {
    if pos + 12 <= |msg| then
      Ok(Header(U16At(msg, pos).value, UnpackFlags(U16At(msg, pos + 2).value), U16At(msg, pos + 4).value,
                U16At(msg, pos + 6).value, U16At(msg, pos + 8).value, U16At(msg, pos + 10).value))
    else Err(ShortRead)
  }

  /** A header is its six words read in turn. */
  lemma HeaderOfWords(msg: Bytes, pos: nat, id: u16, flags: u16, qd: u16, an: u16, ns: u16, ar: u16)
    requires U16At(msg, pos) == Ok(id) && U16At(msg, pos + 2) == Ok(flags)
    requires U16At(msg, pos + 4) == Ok(qd) && U16At(msg, pos + 6) == Ok(an)
    requires U16At(msg, pos + 8) == Ok(ns) && U16At(msg, pos + 10) == Ok(ar)
    ensures HeaderAt(msg, pos) == Ok(Header(id, UnpackFlags(flags), qd, an, ns, ar))
  {
  }

  /** Reading back a written header gives the same id and counts and the
      flags cut to their widths. */
  lemma HeaderRoundTrip(h: Header, post: Bytes)
    ensures HeaderAt(HeaderBytes(h) + post, 0) == Ok(h.(flags := Masked(h.flags)))
  {
    var msg := HeaderBytes(h) + post;
    U16AtBe16([], h.id, msg[2..]);
    assert msg == [] + Be16(h.id) + msg[2..];
    U16AtBe16(msg[..2], PackFlags(h.flags), msg[4..]);
    assert msg == msg[..2] + Be16(PackFlags(h.flags)) + msg[4..];
    U16AtBe16(msg[..4], h.qdcount, msg[6..]);
    assert msg == msg[..4] + Be16(h.qdcount) + msg[6..];
    U16AtBe16(msg[..6], h.ancount, msg[8..]);
    assert msg == msg[..6] + Be16(h.ancount) + msg[8..];
    U16AtBe16(msg[..8], h.nscount, msg[10..]);
    assert msg == msg[..8] + Be16(h.nscount) + msg[10..];
    U16AtBe16(msg[..10], h.arcount, msg[12..]);
    assert msg == msg[..10] + Be16(h.arcount) + msg[12..];
  }

  /** A written header read back from the front of a longer message. */
  lemma HeaderAtPrefix(msg: Bytes, h: Header)
    requires 12 <= |msg| && msg[..12] == HeaderBytes(h)
    ensures HeaderAt(msg, 0) == Ok(h.(flags := Masked(h.flags)))
  {
    HeaderRoundTrip(h, msg[12..]);
    assert msg == HeaderBytes(h) + msg[12..];
  }

  /** `_getErrStr`: the name of a response code. */
  function ErrStr(errno: int): (s: string)
    ensures s == "OK" <==> errno == RCD_OK
    ensures s == "UNKNOWNERROR" <==> !(RCD_OK <= errno <= RCD_REFUSED)
  {
    if errno == RCD_OK then "OK"
    else if errno == RCD_FRMT_ERR then "FORMATERROR"
    else if errno == RCD_SERVFAIL then "SERVFAIL"
    else if errno == RCD_NAME_ERR then "NXDOMAIN"
    else if errno == RCD_NOT_IMPL then "NOTIMPLEMENTED"
    else if errno == RCD_REFUSED then "REFUSED"
    else "UNKNOWNERROR"
  }

  /** The six known codes have six distinct names. */
  lemma ErrStrDistinct(a: int, b: int)
    requires RCD_OK <= a <= RCD_REFUSED && RCD_OK <= b <= RCD_REFUSED
    ensures ErrStr(a) == ErrStr(b) <==> a == b
  {
  }
}
