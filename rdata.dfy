/** The record data of section 3.3 of RFC 1035 (and the AAAA record of RFC
    3596) as `DnsResult._procRawData` and `DnsResult._getSOA` interpret it. */
module RecordData {
  import opened Wire
  import opened Names

  // Record types (section 3.2.2 of RFC 1035; AAAA from section 2.1 of RFC 3596)
  const QT_A := 1
  const QT_NS := 2
  const QT_MD := 3
  const QT_MF := 4
  const QT_CNAME := 5
  const QT_SOA := 6
  const QT_MB := 7
  const QT_MG := 8
  const QT_MR := 9
  const QT_NULL := 10
  const QT_PTR := 12
  const QT_MINFO := 14
  const QT_MX := 15
  const QT_TXT := 16
  const QT_AAAA := 28

  /** The decoded payload of a record, by the shape the parser gives it. */
  datatype RData =
    | NameData(name: Bytes)                  // CNAME, MB, MD, MF, MG, MR, NS, PTR
    | MxData(preference: u16, exchange: Bytes)
    | AddrText(text: string)                 // A and AAAA
    | RawData(raw: Bytes)                    // NULL and TXT
    | SoaData(mname: Bytes, rname: Bytes, serial: u32, refresh: u32, retry: u32, expire: u32, minimum: u32)
    | MinfoData(rmailbx: Bytes, emailbx: Bytes)

  /** The types whose data is a single domain name. */
  predicate IsNameType(qtype: int)
  {
    qtype in {QT_CNAME, QT_MB, QT_MD, QT_MF, QT_MG, QT_MR, QT_NS, QT_PTR}
  }

  /** The types `_procRawData` has a branch for. */
  predicate Supported(qtype: int)
  {
    IsNameType(qtype) || qtype in {QT_MX, QT_A, QT_NULL, QT_TXT, QT_SOA, QT_MINFO, QT_AAAA}
  }

  // ---------------------------------------------------------------------------
  // Numbers as text

  /** The character of a digit below 16, lower-case as Python prints it. */
  function DigitChar(d: nat): char
    requires d < 16
  {
    if d < 10 then ('0' as int + d) as char else ('a' as int + d - 10) as char
  }

  /** The value of a digit character, or -1 for any other character. */
  function DigitValue(c: char): int
  {
    if '0' <= c <= '9' then c as int - '0' as int
    else if 'a' <= c <= 'f' then c as int - 'a' as int + 10
    else -1
  }

  /** The digits of `n` in base `base`, most significant first and without
      leading zeros: `'%d' % n` for base 10, `hex(n)` after its "0x" for base 16. */
  function Digits(n: nat, base: nat): (s: string)
    requires 2 <= base <= 16
    ensures 1 <= |s|
    decreases n
  {
    if n < base then [DigitChar(n)] else Digits(n / base, base) + [DigitChar(n % base)]
  }

  /** The number a string of digits stands for. */
  function ValueOf(s: string, base: nat): int
  {
    if s == [] then 0 else ValueOf(s[..|s| - 1], base) * base + DigitValue(s[|s| - 1])
  }

  /** A digit character reads back as its digit. */
  lemma DigitCharValue(d: nat)
    requires d < 16
    ensures DigitValue(DigitChar(d)) == d
  {
  }

  /** Reading one more digit multiplies by the base and adds the digit. */
  lemma ValueOfSnoc(init: string, c: char, base: nat)
    ensures ValueOf(init + [c], base) == ValueOf(init, base) * base + DigitValue(c)
  {
    assert (init + [c])[..|init|] == init;
  }

  /** `ValueOfSnoc` with the value of the prefix given. */
  lemma ValueOfSnocAt(init: string, c: char, base: nat, v: int)
    requires ValueOf(init, base) == v
    ensures ValueOf(init + [c], base) == v * base + DigitValue(c)
  {
    ValueOfSnoc(init, c, base);
  }

  lemma DivMod(n: nat, base: nat)
    requires 2 <= base <= n
    ensures n == (n / base) * base + n % base && 1 <= n / base < n
  {
  }

  /** Reading the digits of a number back gives the number. */
  lemma {:induction false} DigitsValue(n: nat, base: nat)
    requires 2 <= base <= 16
    ensures ValueOf(Digits(n, base), base) == n
    decreases n
  {
    if n < base {
      DigitCharValue(n);
      ValueOfSnoc([], DigitChar(n), base);
      assert [] + [DigitChar(n)] == Digits(n, base);
    } else {
      DigitsValue(n / base, base);
      DigitsValueStep(n, base, n / base, n % base);
    }
  }

  /** The last digit of `n` after the digits of `n / base`. */
  lemma DigitsValueStep(n: nat, base: nat, q: nat, d: nat)
    requires 2 <= base <= 16 && base <= n && q == n / base && d == n % base && q < n && d < base
    requires ValueOf(Digits(q, base), base) == q
    ensures ValueOf(Digits(n, base), base) == n
  {
    DigitCharValue(d);
    ValueOfSnocAt(Digits(q, base), DigitChar(d), base, q);
    DivMod(n, base);
  }

  /** Every character of the digits is a digit of the base, and the first is
      not a zero unless the number is 0. */
  lemma {:induction false} DigitsWellFormed(n: nat, base: nat)
    requires 2 <= base <= 16
    ensures forall k :: 0 <= k < |Digits(n, base)| ==> 0 <= DigitValue(Digits(n, base)[k]) < base
    ensures n != 0 ==> Digits(n, base)[0] != '0'
    decreases n
  {
    if n < base {
      DigitCharValue(n);
    } else {
      var q, d := n / base, n % base;
      DivMod(n, base);
      var init := Digits(q, base);
      var s := Digits(n, base);
      assert s == init + [DigitChar(d)];
      DigitsWellFormed(q, base);
      DigitCharValue(d);
      forall k | 0 <= k < |s|
        ensures 0 <= DigitValue(s[k]) < base
      {
        if k < |init| {
          assert s[k] == init[k];
        }
      }
    }
  }

  /** One octet of an A record: `'%d.' % ord(c)` for the first three octets and
      `str(ord(c))` after them. It holds a '.' exactly when it is one of the
      first three. */
  function QuadPiece(i: nat, b: byte): string
  {
    Digits(b, 10) + (if i < 3 then "." else "")
  }

  /** The piece of octet `i` holds a '.' exactly when `i` is one of the first
      three. */
  lemma QuadPieceDots(i: nat, b: byte)
    ensures multiset(QuadPiece(i, b))['.'] == if i < 3 then 1 else 0
  {
    DigitsHaveNo(b, 10, '.');
  }

  /** The text of an A record, octet by octet: one '.' after each of the first
      three octets, so three for a four-octet address. */
  function DottedQuad(data: Bytes): (s: string)
  {
    if data == [] then "" else DottedQuad(data[..|data| - 1]) + QuadPiece(|data| - 1, data[|data| - 1])
  }

  /** The A text holds one '.' after each of the first three octets and no
      other, so three for a four-octet address. */
  lemma {:induction false} DottedQuadDots(data: Bytes)
    ensures multiset(DottedQuad(data))['.'] == if |data| < 3 then |data| else 3
    decreases |data|
  {
    if data != [] {
      DottedQuadDots(data[..|data| - 1]);
      QuadPieceDots(|data| - 1, data[|data| - 1]);
    }
  }

  /** Four octets give the dotted-decimal address "a.b.c.d". */
  lemma DottedQuadOfFour(data: Bytes)
    requires |data| == 4
    ensures DottedQuad(data) ==
      Digits(data[0], 10) + "." + Digits(data[1], 10) + "." + Digits(data[2], 10) + "." + Digits(data[3], 10)
  {
    assert data[..1][..0] == [];
    assert DottedQuad(data[..1]) == Digits(data[0], 10) + ".";
    assert data[..2][..1] == data[..1];
    assert DottedQuad(data[..2]) == DottedQuad(data[..1]) + Digits(data[1], 10) + ".";
    assert data[..3][..2] == data[..2];
    assert DottedQuad(data[..3]) == DottedQuad(data[..2]) + Digits(data[2], 10) + ".";
    assert data[..3] == data[..|data| - 1];
    assert DottedQuad(data) == DottedQuad(data[..3]) + Digits(data[3], 10);
  }

  /** One octet of an AAAA record: `hex(ord(c))`, then ':' when its index is
      even and strictly between 0 and 15. */
  function HexPiece(i: nat, b: byte): string
  {
    "0x" + Digits(b, 16) + (if i % 2 == 0 && 0 < i < 15 then ":" else "")
  }

  /** The text of an AAAA record, octet by octet. */
  function HexText(data: Bytes): string
  {
    if data == [] then "" else HexText(data[..|data| - 1]) + HexPiece(|data| - 1, data[|data| - 1])
  }

  /** How many octets among the first `n` are followed by ':'. */
  function ColonSlots(n: nat): nat
  {
    if n <= 2 then 0 else ((if n < 15 then n else 15) - 1) / 2
  }

  lemma ColonSlotsStep(i: nat)
    ensures ColonSlots(i + 1) == ColonSlots(i) + (if i % 2 == 0 && 0 < i < 15 then 1 else 0)
  {
  }

  /** The AAAA text holds one ':' after each even index strictly between 0 and
      15, and no other: seven for a 16-octet address, after octets 2, 4, ... 14. */
  lemma {:induction false} HexTextColons(data: Bytes)
    ensures multiset(HexText(data))[':'] == ColonSlots(|data|)
    decreases |data|
  {
    if data != [] {
      var i := |data| - 1;
      HexTextColons(data[..i]);
      HexPieceColons(i, data[i]);
      ColonSlotsStep(i);
    }
  }

  /** The piece of octet `i` holds a ':' exactly when `i` is even and strictly
      between 0 and 15. */
  lemma HexPieceColons(i: nat, b: byte)
    ensures multiset(HexPiece(i, b))[':'] == if i % 2 == 0 && 0 < i < 15 then 1 else 0
  {
    DigitsHaveNo(b, 16, ':');
  }

  /** A character that is not a digit does not occur among the digits. */
  lemma {:induction false} DigitsHaveNo(n: nat, base: nat, c: char)
    requires 2 <= base <= 16 && DigitValue(c) == -1
    ensures c !in Digits(n, base)
    decreases n
  {
    DigitCharValue(n % base);
    if n >= base {
      DivMod(n, base);
      DigitsHaveNo(n / base, base, c);
    }
  }

  // ---------------------------------------------------------------------------
  // Record data

  /** `_getSOA`: the two names, then five 32-bit counters read from `data` just
      past the second name. */
  function Soa(msg: Bytes, cursor: nat, data: Bytes): (r: Result<(RData, nat)>)
    ensures r.Ok? ==> r.value.1 >= cursor
  {
    match GetName(msg, cursor, None, data)
    case Err(f) => Err(f)
    case Ok(m) =>
      match GetName(msg, m.cursor, m.offset, data)
      case Err(f) => Err(f)
      case Ok(rn) =>
        match rn.offset
        // no offset comes back only for an empty `data`, every slice of which
        // is empty, so that unpacking the serial raises
        case None => Err(ShortRead)
        case Some(off) =>
          match U32At(data, off)
          case Err(f) => Err(f)
          case Ok(serial) =>
            match U32At(data, off + 4)
            case Err(f) => Err(f)
            case Ok(refresh) =>
              match U32At(data, off + 8)
              case Err(f) => Err(f)
              case Ok(retry) =>
                match U32At(data, off + 12)
                case Err(f) => Err(f)
                case Ok(expire) =>
                  match U32At(data, off + 16)
                  case Err(f) => Err(f)
                  case Ok(minimum) =>
                    Ok((SoaData(m.name, rn.name, serial, refresh, retry, expire, minimum), rn.cursor))
  }

  /** `_procRawData(data, qtype, cl)` with the message cursor at `cursor`: the
      decoded payload and the cursor afterwards, which moves only when a name is
      read from an empty `data` (see `GetName`). */
  function RDataOf(msg: Bytes, cursor: nat, data: Bytes, qtype: int): (r: Result<(RData, nat)>)
    ensures r.Ok? ==> r.value.1 >= cursor
  {
    if IsNameType(qtype) then
      match GetName(msg, cursor, None, data)
      case Err(f) => Err(f)
      case Ok(n) => Ok((NameData(n.name), n.cursor))
    else if qtype == QT_MX then
      match U16At(data, 0)
      case Err(f) => Err(f)
      case Ok(pref) =>
        match GetName(msg, cursor, None, data[2..])
        case Err(f) => Err(f)
        case Ok(n) => Ok((MxData(pref, n.name), n.cursor))
    else if qtype == QT_A then Ok((AddrText(DottedQuad(data)), cursor))
    else if qtype == QT_NULL || qtype == QT_TXT then Ok((RawData(data), cursor))
    else if qtype == QT_SOA then Soa(msg, cursor, data)
    else if qtype == QT_MINFO then
      match GetName(msg, cursor, None, data)
      case Err(f) => Err(f)
      case Ok(rm) =>
        match GetName(msg, rm.cursor, rm.offset, data)
        case Err(f) => Err(f)
        case Ok(em) => Ok((MinfoData(rm.name, em.name), em.cursor))
    else if qtype == QT_AAAA then Ok((AddrText(HexText(data)), cursor))
    else Err(Unsupported(qtype))
  }

  /** A record type is refused exactly when `_procRawData` has no branch for it;
      a supported type fails only on a short read or a pointer loop. */
  lemma RDataUnsupported(msg: Bytes, cursor: nat, data: Bytes, qtype: int)
    ensures RDataOf(msg, cursor, data, qtype) == Err(Unsupported(qtype)) <==> !Supported(qtype)
    ensures Supported(qtype) && RDataOf(msg, cursor, data, qtype).Err? ==>
      RDataOf(msg, cursor, data, qtype).fault in {ShortRead, PointerLoop}
  {
    var r := RDataOf(msg, cursor, data, qtype);
    if Supported(qtype) && r.Err? {
      if IsNameType(qtype) || qtype == QT_MINFO {
        NameFaults(msg, cursor, None, data);
        var n := GetName(msg, cursor, None, data);
        if n.Ok? {
          NameFaults(msg, n.value.cursor, n.value.offset, data);
        }
      } else if qtype == QT_MX {
        if U16At(data, 0).Ok? {
          NameFaults(msg, cursor, None, data[2..]);
        }
      } else if qtype == QT_SOA {
        NameFaults(msg, cursor, None, data);
        var n := GetName(msg, cursor, None, data);
        if n.Ok? {
          NameFaults(msg, n.value.cursor, n.value.offset, data);
        }
      }
    }
  }

  /** Name decoding fails only on a short read or a pointer loop. */
  lemma NameFaults(msg: Bytes, cursor: nat, offset: Option<nat>, data: Bytes)
    ensures GetName(msg, cursor, offset, data).Err? ==>
      GetName(msg, cursor, offset, data).fault in {ShortRead, PointerLoop}
  {
    if data != [] {
      NameFromFaults(data, if offset.Some? then offset.value else 0, msg);
    } else if offset.Some? {
      NameFromFaults(msg, offset.value, msg);
    } else {
      NameFromFaults(msg, cursor, msg);
    }
  }

  lemma NameFromFaults(src: Bytes, pos: nat, msg: Bytes)
    ensures NameFrom(src, pos, msg).Err? ==> NameFrom(src, pos, msg).fault in {ShortRead, PointerLoop}
  {
    RunFaults(src, pos);
    match Run(src, pos)
    case Err(_) =>
    case Ok((_, Root, _)) =>
    case Ok((_, Pointer(_, t), _)) => ChaseFaults(msg, t, {});
  }

  lemma {:induction false} ChaseFaults(msg: Bytes, target: nat, visited: set<nat>)
    requires forall p :: p in visited ==> p < |msg|
    ensures Chase(msg, target, visited).Err? ==> Chase(msg, target, visited).fault in {ShortRead, PointerLoop}
    decreases |msg| - |visited|
  {
    RunFaults(msg, target);
    match Run(msg, target)
    case Err(_) =>
    case Ok((_, Root, _)) =>
    case Ok((_, Pointer(at, t), _)) =>
      if at !in visited {
        BoundedSetSize(visited + {at}, |msg|);
        ChaseFaults(msg, t, visited + {at});
      }
  }

  /** An A record's four octets become its dotted-decimal address, and the
      cursor stays where it was. */
  lemma AddressRecord(msg: Bytes, cursor: nat, data: Bytes)
    requires |data| == 4
    ensures RDataOf(msg, cursor, data, QT_A) == Ok((AddrText(
      Digits(data[0], 10) + "." + Digits(data[1], 10) + "." + Digits(data[2], 10) + "." + Digits(data[3], 10)), cursor))
  {
    DottedQuadOfFour(data);
  }

  /** The address 93.184.216.34 from the octets 93, 184, 216 and 34. */
  lemma AddressExample(msg: Bytes, cursor: nat)
    ensures RDataOf(msg, cursor, [93, 184, 216, 34], QT_A) == Ok((AddrText("93.184.216.34"), cursor))
  {
    var data: Bytes := [93, 184, 216, 34];
    AddressRecord(msg, cursor, data);
    assert data[0] == 93 && data[1] == 184 && data[2] == 216 && data[3] == 34;
    ExampleDigits();
  }

  /** The decimal texts of the example octets. */
  lemma ExampleDigits()
    ensures Digits(93, 10) + "." + Digits(184, 10) + "." + Digits(216, 10) + "." + Digits(34, 10) == "93.184.216.34"
  {
    assert Digits(93, 10) == "93";
    assert Digits(184, 10) == "184";
    assert Digits(216, 10) == "216";
    assert Digits(34, 10) == "34";
  }

  /** TXT and NULL data come back as the raw octets, cursor unchanged. */
  lemma RawRecord(msg: Bytes, cursor: nat, data: Bytes, qtype: int)
    requires qtype == QT_TXT || qtype == QT_NULL
    ensures RDataOf(msg, cursor, data, qtype) == Ok((RawData(data), cursor))
  {
  }

  /** MX data is a 16-bit preference and the name that follows it; it fails
      when fewer than two octets are there. With more than two octets the name
      is read from the data after the preference and the cursor stays; with
      exactly two, `data[2:]` is empty, so the name is read at the message
      cursor, which moves past it. A failing name read is the record's failure. */
  lemma MailExchangeRecord(msg: Bytes, cursor: nat, data: Bytes)
    ensures |data| < 2 ==> RDataOf(msg, cursor, data, QT_MX) == Err(ShortRead)
    ensures |data| > 2 ==>
      RDataOf(msg, cursor, data, QT_MX) ==
        match NameFrom(data[2..], 0, msg)
        case Err(f) => Err(f)
        case Ok((name, _)) => Ok((MxData((data[0] as int) * 0x100 + data[1], name), cursor))
    ensures |data| == 2 ==>
      RDataOf(msg, cursor, data, QT_MX) ==
        match NameFrom(msg, cursor, msg)
        case Err(f) => Err(f)
        case Ok((name, next)) => Ok((MxData((data[0] as int) * 0x100 + data[1], name), next))
  {
    if |data| >= 2 {
      assert Slice(data, 0, 2) == data[..2];
    }
    if |data| == 2 {
      assert data[2..] == [];
    }
  }

  /** MINFO data is two names: the mailbox for the list, read from the start of
      the data, then the mailbox for errors, read from where the first stopped.
      The cursor stays. A failing read of either is the record's failure. */
  lemma MailInfoRecord(msg: Bytes, cursor: nat, data: Bytes)
    requires data != []
    ensures RDataOf(msg, cursor, data, QT_MINFO) ==
      match NameFrom(data, 0, msg)
      case Err(f) => Err(f)
      case Ok((rmailbx, off)) =>
        match NameFrom(data, off, msg)
        case Err(f) => Err(f)
        case Ok((emailbx, _)) => Ok((MinfoData(rmailbx, emailbx), cursor))
  {
  }

  /** MINFO data that is empty makes both names read at the message cursor,
      one after the other, and the cursor moves past both: `if data` is false,
      and the first read returns no offset, so the second one falls back to the
      cursor as well. */
  lemma EmptyMailInfoReadsCursor(msg: Bytes, cursor: nat)
    ensures RDataOf(msg, cursor, [], QT_MINFO) ==
      match NameFrom(msg, cursor, msg)
      case Err(f) => Err(f)
      case Ok((rmailbx, mid)) =>
        match NameFrom(msg, mid, msg)
        case Err(f) => Err(f)
        case Ok((emailbx, next)) => Ok((MinfoData(rmailbx, emailbx), next))
  {
  }

  /** A name-typed record whose data is empty reads its name from the message
      at the cursor and moves the cursor past it: `if data` is false for an
      empty string, so `_getName` falls back to the cursor. */
  lemma EmptyNameDataReadsCursor(msg: Bytes, cursor: nat, qtype: int)
    requires IsNameType(qtype)
    ensures RDataOf(msg, cursor, [], qtype) ==
      match NameFrom(msg, cursor, msg)
      case Err(f) => Err(f)
      case Ok((name, next)) => Ok((NameData(name), next))
  {
  }

  /** A 32-bit read does not depend on the octets before the field. */
  lemma U32AtShift(a: Bytes, b: Bytes, k: nat, pos: nat)
    requires pos == |a| + k
    ensures U32At(a + b, pos) == U32At(b, k)
  {
    var s := a + b;
    if k + 4 <= |b| {
      assert s[pos..pos + 4] == b[k..k + 4];
    }
  }

  /** The five counters of an SOA record read back from the start of `c`. */
  lemma CountersRoundTrip(serial: u32, refresh: u32, retry: u32, expire: u32, minimum: u32, extra: Bytes)
    ensures var c := Be32(serial) + (Be32(refresh) + (Be32(retry) + (Be32(expire) + (Be32(minimum) + extra))));
      && U32At(c, 0) == Ok(serial) && U32At(c, 4) == Ok(refresh) && U32At(c, 8) == Ok(retry)
      && U32At(c, 12) == Ok(expire) && U32At(c, 16) == Ok(minimum)
  {
    var c4 := Be32(minimum) + extra;
    var c3 := Be32(expire) + c4;
    var c2 := Be32(retry) + c3;
    var c1 := Be32(refresh) + c2;
    var c := Be32(serial) + c1;
    U32AtBe32([], serial, c1);
    assert [] + Be32(serial) + c1 == c;
    U32AtBe32([], refresh, c2);
    assert [] + Be32(refresh) + c2 == c1;
    U32AtShift(Be32(serial), c1, 0, 4);
    U32AtBe32([], retry, c3);
    assert [] + Be32(retry) + c3 == c2;
    U32AtShift(Be32(refresh), c2, 0, 4);
    U32AtShift(Be32(serial), c1, 4, 8);
    U32AtBe32([], expire, c4);
    assert [] + Be32(expire) + c4 == c3;
    U32AtShift(Be32(retry), c3, 0, 4);
    U32AtShift(Be32(refresh), c2, 4, 8);
    U32AtShift(Be32(serial), c1, 8, 12);
    U32AtBe32([], minimum, extra);
    assert [] + Be32(minimum) + extra == c4;
    U32AtShift(Be32(expire), c4, 0, 4);
    U32AtShift(Be32(retry), c3, 4, 8);
    U32AtShift(Be32(refresh), c2, 8, 12);
    U32AtShift(Be32(serial), c1, 12, 16);
  }

  /** `_getSOA` once its two names and five counters have been read. */
  lemma SoaOfParts(msg: Bytes, cursor: nat, data: Bytes, mname: Bytes, rname: Bytes, o1: nat, off: nat,
                   serial: u32, refresh: u32, retry: u32, expire: u32, minimum: u32)
    requires GetName(msg, cursor, None, data) == Ok(NameRead(mname, Some(o1), cursor))
    requires GetName(msg, cursor, Some(o1), data) == Ok(NameRead(rname, Some(off), cursor))
    requires U32At(data, off) == Ok(serial) && U32At(data, off + 4) == Ok(refresh)
    requires U32At(data, off + 8) == Ok(retry) && U32At(data, off + 12) == Ok(expire)
    requires U32At(data, off + 16) == Ok(minimum)
    ensures RDataOf(msg, cursor, data, QT_SOA) ==
      Ok((SoaData(mname, rname, serial, refresh, retry, expire, minimum), cursor))
  {
    assert Soa(msg, cursor, data) == Ok((SoaData(mname, rname, serial, refresh, retry, expire, minimum), cursor));
  }

  /** A name stored uncompressed in record data reads back from its offset
      (no offset meaning the start), leaving the message cursor alone. */
  lemma NameInData(msg: Bytes, cursor: nat, offset: Option<nat>, data: Bytes, pre: Bytes, labels: seq<Bytes>, post: Bytes, next: nat)
    requires forall k :: 0 <= k < |labels| ==> ShortLabel(labels[k])
    requires offset == Some(|pre|) || (pre == [] && offset.None?)
    requires data == pre + LabelWire(labels) + [0] + post
    requires next == |pre| + |LabelWire(labels)| + 1
    ensures GetName(msg, cursor, offset, data) == Ok(NameRead(Join(labels), Some(next), cursor))
  {
    assert data[|pre|..next] == LabelWire(labels) + [0];
    WireAtWindow(data, |pre|, labels, next);
    RunOfWire(data, |pre|, labels, next);
  }

  /** The five counters read back from wherever they sit after octets `pre`. */
  lemma CountersAfter(data: Bytes, pre: Bytes, at: nat,
                      serial: u32, refresh: u32, retry: u32, expire: u32, minimum: u32, extra: Bytes)
    requires data == pre + (Be32(serial) + (Be32(refresh) + (Be32(retry) + (Be32(expire) + (Be32(minimum) + extra)))))
    requires at == |pre|
    ensures U32At(data, at) == Ok(serial) && U32At(data, at + 4) == Ok(refresh)
    ensures U32At(data, at + 8) == Ok(retry) && U32At(data, at + 12) == Ok(expire)
    ensures U32At(data, at + 16) == Ok(minimum)
  {
    var c := Be32(serial) + (Be32(refresh) + (Be32(retry) + (Be32(expire) + (Be32(minimum) + extra))));
    CountersRoundTrip(serial, refresh, retry, expire, minimum, extra);
    U32AtShift(pre, c, 0, at);
    U32AtShift(pre, c, 4, at + 4);
    U32AtShift(pre, c, 8, at + 8);
    U32AtShift(pre, c, 12, at + 12);
    U32AtShift(pre, c, 16, at + 16);
  }

  /** The SOA layout, two names `a` and `b` and the counters `p1` ... `p5`, cut
      at the places where each part starts. */
  lemma SoaLayout(a: Bytes, b: Bytes, p1: Bytes, p2: Bytes, p3: Bytes, p4: Bytes, p5: Bytes, x: Bytes)
    ensures var c := p1 + (p2 + (p3 + (p4 + (p5 + x))));
      var data := a + [0] + b + [0] + (p1 + p2 + p3 + p4 + p5) + x;
      && data == [] + a + [0] + ((b + [0]) + c)
      && data == (a + [0]) + b + [0] + c
      && data == ((a + [0]) + (b + [0])) + c
  {
  }

  /** The reads `_getSOA` makes of data laid out as two uncompressed names and
      the five counters. */
  lemma SoaReads(msg: Bytes, cursor: nat, mname: seq<Bytes>, rname: seq<Bytes>,
                 serial: u32, refresh: u32, retry: u32, expire: u32, minimum: u32, extra: Bytes,
                 data: Bytes, o1: nat, off: nat)
    requires forall k :: 0 <= k < |mname| ==> ShortLabel(mname[k])
    requires forall k :: 0 <= k < |rname| ==> ShortLabel(rname[k])
    requires data == LabelWire(mname) + [0] + LabelWire(rname) + [0]
      + (Be32(serial) + Be32(refresh) + Be32(retry) + Be32(expire) + Be32(minimum)) + extra
    requires o1 == |LabelWire(mname)| + 1 && off == o1 + |LabelWire(rname)| + 1
    ensures GetName(msg, cursor, None, data) == Ok(NameRead(Join(mname), Some(o1), cursor))
    ensures GetName(msg, cursor, Some(o1), data) == Ok(NameRead(Join(rname), Some(off), cursor))
    ensures U32At(data, off) == Ok(serial) && U32At(data, off + 4) == Ok(refresh)
    ensures U32At(data, off + 8) == Ok(retry) && U32At(data, off + 12) == Ok(expire)
    ensures U32At(data, off + 16) == Ok(minimum)
  {
    var first := LabelWire(mname) + [0];
    var second := LabelWire(rname) + [0];
    var c := Be32(serial) + (Be32(refresh) + (Be32(retry) + (Be32(expire) + (Be32(minimum) + extra))));
    SoaLayout(LabelWire(mname), LabelWire(rname), Be32(serial), Be32(refresh), Be32(retry), Be32(expire),
              Be32(minimum), extra);
    NameInData(msg, cursor, None, data, [], mname, second + c, o1);
    NameInData(msg, cursor, Some(o1), data, first, rname, c, off);
    CountersAfter(data, first + second, off, serial, refresh, retry, expire, minimum, extra);
  }

  /** SOA data laid out as two uncompressed names and the five counters decodes
      to those names and counters, in order. */
  lemma SoaRoundTrip(msg: Bytes, cursor: nat, mname: seq<Bytes>, rname: seq<Bytes>,
                     serial: u32, refresh: u32, retry: u32, expire: u32, minimum: u32, extra: Bytes)
    requires forall k :: 0 <= k < |mname| ==> ShortLabel(mname[k])
    requires forall k :: 0 <= k < |rname| ==> ShortLabel(rname[k])
    ensures RDataOf(msg, cursor, LabelWire(mname) + [0] + LabelWire(rname) + [0]
        + (Be32(serial) + Be32(refresh) + Be32(retry) + Be32(expire) + Be32(minimum)) + extra, QT_SOA) ==
      Ok((SoaData(Join(mname), Join(rname), serial, refresh, retry, expire, minimum), cursor))
  {
    var data := LabelWire(mname) + [0] + LabelWire(rname) + [0]
      + (Be32(serial) + Be32(refresh) + Be32(retry) + Be32(expire) + Be32(minimum)) + extra;
    var o1 := |LabelWire(mname)| + 1;
    var off := o1 + |LabelWire(rname)| + 1;
    SoaReads(msg, cursor, mname, rname, serial, refresh, retry, expire, minimum, extra, data, o1, off);
    SoaOfParts(msg, cursor, data, Join(mname), Join(rname), o1, off, serial, refresh, retry, expire, minimum);
  }
}
