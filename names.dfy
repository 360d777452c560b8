/** Domain names on the wire (section 3.1 and 4.1.4 of RFC 1035): the encoder
    `DnsRequest._getName` and the decoder `DnsResult._getName`, with its three
    reading modes and its compression pointers. */
module Names {
  import opened Wire

  /** The octet '.'. */
  const DOT: byte := 0x2E

  /** Parts joined with '.', as `'.'.join(parts)`. */
  function Join(parts: seq<Bytes>): Bytes
  {
    if parts == [] then []
    else if |parts| == 1 then parts[0]
    else parts[0] + [DOT] + Join(parts[1..])
  }

  /** `s.split('.')`: the dot-free runs of `s` in order, empty ones included,
      so that joining them with '.' gives `s` back. */
  function Split(s: Bytes): (parts: seq<Bytes>)
    ensures |parts| >= 1
    ensures forall k :: 0 <= k < |parts| ==> DOT !in parts[k]
    ensures Join(parts) == s
    decreases |s|
  {
    if s == [] then [[]]
    else
      var rest := Split(s[1..]);
      assert rest == [rest[0]] + rest[1..];
      if s[0] == DOT then [[]] + rest
      else [[s[0]] + rest[0]] + rest[1..]
  }

  /** The parts that the encoder writes: `if part:` skips every empty one. */
  function Labels(parts: seq<Bytes>): (labels: seq<Bytes>)
    ensures forall k :: 0 <= k < |labels| ==> labels[k] != [] && labels[k] in parts
    ensures forall k :: 0 <= k < |parts| && parts[k] != [] ==> parts[k] in labels
    ensures multiset(labels) == multiset(parts)[[] := 0]
  {
    if parts == [] then []
    else
      var p := parts[|parts| - 1];
      var init := Labels(parts[..|parts| - 1]);
      assert parts == parts[..|parts| - 1] + [p];
      if p == [] then init else init + [p]
  }

  /** Keeping the non-empty parts of two runs of parts keeps them run by run,
      so the labels come out in the order of the parts. */
  lemma {:induction false} LabelsAppend(a: seq<Bytes>, b: seq<Bytes>)
    ensures Labels(a + b) == Labels(a) + Labels(b)
    decreases |b|
  {
    if b == [] {
      assert a + b == a;
    } else {
      var init := b[..|b| - 1];
      assert (a + b)[..|a + b| - 1] == a + init;
      LabelsAppend(a, init);
    }
  }

  /** A label the encoder accepts. */
  predicate ShortLabel(l: Bytes)
  {
    1 <= |l| <= 63
  }

  /** The length-prefixed encoding of a sequence of labels, without the
      terminating zero octet. */
  function LabelWire(labels: seq<Bytes>): Bytes
    requires forall k :: 0 <= k < |labels| ==> ShortLabel(labels[k])
  {
    if labels == [] then []
    else
      assert ShortLabel(labels[0]);
      [|labels[0]| as byte] + labels[0] + LabelWire(labels[1..])
  }

  /** The loop of `DnsRequest._getName` over the parts of a name, as it stands
      after the given parts: the encoded non-empty parts so far, or the error
      for the first part longer than 63 octets. */
  function EncodeParts(parts: seq<Bytes>): (r: Result<Bytes>)
    ensures r.Ok? ==> forall k :: 0 <= k < |parts| ==> |parts[k]| <= 63
    ensures r.Err? ==> r.fault.LabelTooLong? && r.fault.part in parts && |r.fault.part| > 63
  {
    if parts == [] then Ok([])
    else
      match EncodeParts(parts[..|parts| - 1])
      case Err(f) => Err(f)
      case Ok(prefix) =>
        var p := parts[|parts| - 1];
        if p == [] then Ok(prefix)
        else if |p| > 63 then Err(LabelTooLong(p))
        else Ok(prefix + [|p| as byte] + p)
  }

  /** `DnsRequest._getName(name)`: every non-empty dot-separated part as a length
      octet and its octets, then a zero octet. */
  function EncodedName(name: Bytes): (r: Result<Bytes>)
    ensures r.Ok? ==> forall k :: 0 <= k < |Split(name)| ==> |Split(name)[k]| <= 63
    ensures r.Ok? ==> |r.value| >= 1 && r.value[|r.value| - 1] == 0
    ensures r.Err? ==> r.fault.LabelTooLong? && DOT !in r.fault.part && |r.fault.part| > 63
  {
    match EncodeParts(Split(name))
    case Err(f) => Err(f)
    case Ok(w) => Ok(w + [0])
  }

  /** What ends a run of labels: a zero octet, or a compression pointer sitting
      at `at` and naming `target`. */
  datatype Tail = Root | Pointer(at: nat, target: nat)

  /** The 14-bit offset named by the pointer whose two octets start at `at`:
      `((i << 8) | j) & ~0xC000`. */
  function TargetOf(msg: Bytes, at: nat): nat
    requires at + 1 < |msg|
  {
    ((msg[at] as int) * 0x100 + msg[at + 1]) % 0x4000
  }

  /** The labels of a wire name in `src` from `pos` up to the first zero octet or
      pointer, what ended them and the position just past that terminator. An
      octet with both top bits set (`i & 0xC0 == 0xC0`) opens a pointer, whose
      14-bit target is `((i << 8) | j) & ~0xC000`; any other non-zero octet is
      the length of a label. A read past the end of `src` fails: for a label
      cut short it is the read of the octet after it that raises. */
  function Run(src: Bytes, pos: nat): (r: Result<(seq<Bytes>, Tail, nat)>)
    ensures r.Ok? ==> pos < r.value.2 <= |src|
    ensures r.Ok? ==> forall k :: 0 <= k < |r.value.0| ==> 1 <= |r.value.0[k]| < 0xC0
    ensures r.Ok? && r.value.1.Pointer? ==>
      r.value.1.at + 2 == r.value.2 && r.value.1.target < 0x4000 && src[r.value.1.at] >= 0xC0
    ensures r.Ok? && r.value.1.Root? ==> src[r.value.2 - 1] == 0
    decreases |src| - pos
  {
    if pos >= |src| then Err(ShortRead)
    else
      var i := src[pos];
      if i >= 0xC0 then
        if pos + 1 >= |src| then Err(ShortRead)
        else Ok(([], Pointer(pos, TargetOf(src, pos)), pos + 2))
      else if i == 0 then Ok(([], Root, pos + 1))
      else if pos + 1 + i > |src| then Err(ShortRead)
      else
        match Run(src, pos + 1 + i)
        case Err(f) => Err(f)
        case Ok((labels, tail, next)) => Ok(([src[pos + 1..pos + 1 + i]] + labels, tail, next))
  }

  /** Appending the name a pointer names: `qname += '.%s' % dom` when `qname`
      is not empty, `qname = dom` otherwise. */
  function Attach(qname: Bytes, dom: Bytes): (r: Bytes)
    ensures r == [] <==> qname == [] && dom == []
    ensures |r| >= |qname| + |dom|
  {
    if qname != [] then qname + [DOT] + dom else dom
  }

  /** A finite set of positions below `n` has at most `n` elements. */
  lemma {:induction false} BoundedSetSize(s: set<nat>, n: nat)
    requires forall x :: x in s ==> x < n
    ensures |s| <= n
  {
    if n == 0 {
      assert s == {};
    } else {
      var s' := s - {n - 1};
      BoundedSetSize(s', n - 1);
      assert s <= s' + {n - 1};
    }
  }

  /** The name at offset `target` of the message, as `self._getName(pOffset)`
      reads it, following its pointers. `visited` holds the pointers already
      followed: meeting one again means the Python recursion would never end,
      which is reported as `PointerLoop`. */
  function Chase(msg: Bytes, target: nat, visited: set<nat>): (r: Result<Bytes>)
    requires forall p :: p in visited ==> p < |msg|
    ensures r.Ok? ==> target < |msg|
    decreases |msg| - |visited|
  {
    match Run(msg, target)
    case Err(f) => Err(f)
    case Ok((labels, Root, _)) => Ok(Join(labels))
    case Ok((labels, Pointer(at, t), _)) =>
      if at in visited then Err(PointerLoop)
      else
        BoundedSetSize(visited + {at}, |msg|);
        match Chase(msg, t, visited + {at})
        case Err(f) => Err(f)
        case Ok(dom) => Ok(Attach(Join(labels), dom))
  }

  /** `_getName` reading labels from `src` at `pos`, a final pointer being
      resolved in the whole message `msg`: the name and the position just past
      its zero octet or its two pointer octets. */
  function NameFrom(src: Bytes, pos: nat, msg: Bytes): (r: Result<(Bytes, nat)>)
    ensures r.Ok? ==> pos < r.value.1 <= |src|
  {
    match Run(src, pos)
    case Err(f) => Err(f)
    case Ok((labels, Root, next)) => Ok((Join(labels), next))
    case Ok((labels, Pointer(_, t), next)) =>
      match Chase(msg, t, {})
      case Err(f) => Err(f)
      case Ok(dom) => Ok((Attach(Join(labels), dom), next))
  }

  /** What `DnsResult._getName(offset, data, retOffset)` gives back: the name,
      the offset it returns (`None` standing for -1) and the message cursor
      `_bp` afterwards. */
  datatype NameRead = NameRead(name: Bytes, offset: Option<nat>, cursor: nat)

  /** `DnsResult._getName`, whose source of octets is chosen by the truth of
      `data` and by `offset` (`None` standing for the default -1): a non-empty
      `data` is read from `offset` or 0; otherwise the message is read from
      `offset` when one is given, and from the cursor, which then advances,
      when none is. An empty `data` therefore reads from the message cursor. */
  function GetName(msg: Bytes, cursor: nat, offset: Option<nat>, data: Bytes): (r: Result<NameRead>)
    ensures r.Ok? ==> r.value.cursor >= cursor
    ensures r.Ok? && data != [] ==> r.value.cursor == cursor && r.value.offset.Some?
    ensures r.Ok? && data == [] && offset.None? ==> r.value.offset.None? && cursor < r.value.cursor <= |msg|
  {
    if data != [] then
      match NameFrom(data, if offset.Some? then offset.value else 0, msg)
      case Err(f) => Err(f)
      case Ok((name, next)) => Ok(NameRead(name, Some(next), cursor))
    else if offset.Some? then
      match NameFrom(msg, offset.value, msg)
      case Err(f) => Err(f)
      case Ok((name, next)) => Ok(NameRead(name, Some(next), cursor))
    else
      match NameFrom(msg, cursor, msg)
      case Err(f) => Err(f)
      case Ok((name, next)) => Ok(NameRead(name, None, next))
  }

  // ---------------------------------------------------------------------------
  // Properties of the encoder

  /** Joining one more part onto a non-empty list puts a '.' before it; this is
      the step `'%s.%s' % (qname, chunk)` of the decoder. */
  lemma {:induction false} JoinSnoc(parts: seq<Bytes>, c: Bytes)
    requires parts != []
    ensures Join(parts + [c]) == Join(parts) + [DOT] + c
  {
    if |parts| > 1 {
      assert (parts + [c])[1..] == parts[1..] + [c];
      JoinSnoc(parts[1..], c);
    }
  }

  /** Joining non-empty labels gives an empty name only for no labels. */
  lemma {:induction false} JoinEmpty(labels: seq<Bytes>)
    requires forall k :: 0 <= k < |labels| ==> labels[k] != []
    ensures Join(labels) == [] <==> labels == []
  {
    if |labels| > 1 {
      JoinEmpty(labels[1..]);
    }
  }

  /** Encoding one more label appends its length octet and its octets. */
  lemma {:induction false} LabelWireSnoc(labels: seq<Bytes>, l: Bytes)
    requires forall k :: 0 <= k < |labels| ==> ShortLabel(labels[k])
    requires ShortLabel(l)
    ensures LabelWire(labels + [l]) == LabelWire(labels) + [|l| as byte] + l
  {
    if labels != [] {
      assert (labels + [l])[1..] == labels[1..] + [l];
      LabelWireSnoc(labels[1..], l);
    }
  }

  /** The encoder succeeds exactly when no part is longer than 63 octets, and
      then writes each non-empty part, in order, as a length octet followed by
      its octets. A failure names a part longer than 63 octets. */
  lemma {:induction false} EncodePartsSpec(parts: seq<Bytes>)
    ensures EncodeParts(parts).Ok? <==> forall k :: 0 <= k < |parts| ==> |parts[k]| <= 63
    ensures EncodeParts(parts).Ok? ==>
      (forall k :: 0 <= k < |Labels(parts)| ==> ShortLabel(Labels(parts)[k])) &&
      EncodeParts(parts).value == LabelWire(Labels(parts))
    ensures EncodeParts(parts).Err? ==>
      exists k :: 0 <= k < |parts| && EncodeParts(parts).fault == LabelTooLong(parts[k]) && |parts[k]| > 63
  {
    if parts != [] {
      var init := parts[..|parts| - 1];
      var p := parts[|parts| - 1];
      EncodePartsSpec(init);
      assert forall k :: 0 <= k < |init| ==> init[k] == parts[k];
      if EncodeParts(init).Ok? && p != [] && |p| <= 63 {
        LabelWireSnoc(Labels(init), p);
      }
    }
  }

  /** Once a prefix of the parts fails, the whole name fails with the same
      error: the encoder raises at the first part that is too long. */
  lemma {:induction false} EncodePartsFailsEarly(parts: seq<Bytes>, n: nat)
    requires n <= |parts|
    requires EncodeParts(parts[..n]).Err?
    ensures EncodeParts(parts) == EncodeParts(parts[..n])
    decreases |parts| - n
  {
    if n < |parts| {
      assert parts[..n + 1][..n] == parts[..n];
      EncodePartsFailsEarly(parts, n + 1);
    } else {
      assert parts[..n] == parts;
    }
  }

  /** The encoder reports the first part longer than 63 octets, whatever
      follows it. */
  lemma EncodePartsFirstLong(parts: seq<Bytes>, k: nat)
    requires k < |parts| && |parts[k]| > 63
    requires forall j :: 0 <= j < k ==> |parts[j]| <= 63
    ensures EncodeParts(parts) == Err(LabelTooLong(parts[k]))
  {
    EncodePartsSpec(parts[..k]);
    assert parts[..k + 1][..k] == parts[..k];
    assert EncodeParts(parts[..k + 1]) == Err(LabelTooLong(parts[k]));
    EncodePartsFailsEarly(parts, k + 1);
  }

  /** Name encoding fails exactly when some dot-separated part is longer than 63
      octets; otherwise it is the length-prefixed non-empty parts and a zero. */
  lemma EncodedNameSpec(name: Bytes)
    ensures EncodedName(name).Ok? <==> forall k :: 0 <= k < |Split(name)| ==> |Split(name)[k]| <= 63
    ensures EncodedName(name).Ok? ==>
      (forall k :: 0 <= k < |Labels(Split(name))| ==> ShortLabel(Labels(Split(name))[k])) &&
      EncodedName(name).value == LabelWire(Labels(Split(name))) + [0]
  {
    EncodePartsSpec(Split(name));
  }

  /** Keeping the non-empty parts changes nothing when no part is empty. */
  lemma {:induction false} LabelsOfNonEmpty(parts: seq<Bytes>)
    requires forall k :: 0 <= k < |parts| ==> parts[k] != []
    ensures Labels(parts) == parts
  {
    if parts != [] {
      var init, p := parts[..|parts| - 1], parts[|parts| - 1];
      LabelsOfNonEmpty(init);
      assert Labels(parts) == Labels(init) + [p];
      assert init + [p] == parts;
    }
  }

  // ---------------------------------------------------------------------------
  // Properties of the decoder

  /** One label of length `src[pos]` at `pos`, followed by a run from `next`. */
  lemma RunLabelThen(src: Bytes, pos: nat, next: nat, chunk: Bytes, labels: seq<Bytes>, tail: Tail, end: nat)
    requires pos < |src| && 0 < src[pos] < 0xC0 && pos + 1 + src[pos] <= |src|
    requires next == pos + 1 + src[pos as int] as int
    requires chunk == src[pos + 1..pos + 1 + src[pos]]
    requires Run(src, next) == Ok((labels, tail, end))
    ensures Run(src, pos) == Ok(([chunk] + labels, tail, end))
  {
  }

  /** A run ending in a zero octet is the whole name. */
  lemma NameFromRoot(src: Bytes, pos: nat, msg: Bytes, labels: seq<Bytes>, next: nat)
    requires Run(src, pos) == Ok((labels, Root, next))
    ensures NameFrom(src, pos, msg) == Ok((Join(labels), next))
  {
  }

  /** A window of `s` holding `x + y` holds `x` first and then `y`. */
  lemma WindowSplit(s: Bytes, a: nat, b: nat, x: Bytes, y: Bytes)
    requires a <= b <= |s| && s[a..b] == x + y
    ensures a + |x| <= b && s[a..a + |x|] == x && s[a + |x|..b] == y
  {
    assert s[a..a + |x|] == s[a..b][..|x|];
    assert s[a + |x|..b] == s[a..b][|x|..];
  }

  /** The octets from `at` up to `end` are the given labels, each behind its
      length octet, and then a zero octet. */
  predicate WireAt(msg: Bytes, at: nat, labels: seq<Bytes>, end: nat)
    decreases |labels|
  {
    at < |msg| &&
    if labels == [] then msg[at] == 0 && end == at + 1
    else
      && msg[at] as int == |labels[0]|
      && 0 < |labels[0]| < 0xC0
      && at + 1 + |labels[0]| <= |msg|
      && msg[at + 1..at + 1 + |labels[0]|] == labels[0]
      && WireAt(msg, at + 1 + |labels[0]|, labels[1..], end)
  }

  /** A window holding the encoding of short labels and a zero octet. */
  lemma {:induction false} WireAtWindow(msg: Bytes, at: nat, labels: seq<Bytes>, end: nat)
    requires forall k :: 0 <= k < |labels| ==> ShortLabel(labels[k])
    requires end == at + |LabelWire(labels)| + 1 <= |msg|
    requires msg[at..end] == LabelWire(labels) + [0]
    ensures WireAt(msg, at, labels, end)
    decreases |labels|
  {
    if labels == [] {
      assert msg[at] == msg[at..end][0];
    } else {
      var l := labels[0];
      var rest := LabelWire(labels[1..]) + [0];
      assert msg[at..end] == [|l| as byte] + (l + rest);
      WindowSplit(msg, at, end, [|l| as byte], l + rest);
      WindowSplit(msg, at + 1, end, l, rest);
      assert msg[at] == msg[at..at + 1][0];
      WireAtWindow(msg, at + 1 + |l|, labels[1..], end);
    }
  }

  /** Reading labels laid out as `WireAt` says gives the same labels back and
      stops just past the zero octet. */
  lemma {:induction false} RunOfWire(msg: Bytes, at: nat, labels: seq<Bytes>, end: nat)
    requires WireAt(msg, at, labels, end)
    ensures Run(msg, at) == Ok((labels, Root, end))
    decreases |labels|
  {
    if labels != [] {
      var l := labels[0];
      RunOfWire(msg, at + 1 + |l|, labels[1..], end);
      RunLabelThen(msg, at, at + 1 + |l|, l, labels[1..], Root, end);
      assert labels == [l] + labels[1..];
    }
  }

  /** Round trip of a name: decoding what the encoder wrote, wherever it sits in
      a message, gives the non-empty parts of the name joined by '.' and leaves
      the cursor just past the encoding. */
  lemma NameRoundTrip(name: Bytes, enc: Bytes, msg: Bytes, at: nat)
    requires EncodedName(name) == Ok(enc)
    requires at + |enc| <= |msg| && msg[at..at + |enc|] == enc
    ensures NameFrom(msg, at, msg) == Ok((Join(Labels(Split(name))), at + |enc|))
  {
    EncodedWire(name, enc);
    NameOfLabelWire(msg, at, Labels(Split(name)), at + |enc|);
  }

  /** What the encoder writes for a name that it accepts. */
  lemma EncodedWire(name: Bytes, enc: Bytes)
    requires EncodedName(name) == Ok(enc)
    ensures forall k :: 0 <= k < |Labels(Split(name))| ==> ShortLabel(Labels(Split(name))[k])
    ensures enc == LabelWire(Labels(Split(name))) + [0]
  {
    EncodedNameSpec(name);
  }

  /** Labels laid out as `WireAt` says read back as the labels joined by '.'. */
  lemma NameOfWire(msg: Bytes, at: nat, labels: seq<Bytes>, end: nat)
    requires WireAt(msg, at, labels, end)
    ensures NameFrom(msg, at, msg) == Ok((Join(labels), end))
  {
    RunOfWire(msg, at, labels, end);
    NameFromRoot(msg, at, msg, labels, end);
  }

  /** The encoding of short labels, wherever it sits in a message, reads back
      as the labels joined by '.'. */
  lemma NameOfLabelWire(msg: Bytes, at: nat, labels: seq<Bytes>, end: nat)
    requires forall k :: 0 <= k < |labels| ==> ShortLabel(labels[k])
    requires end == at + |LabelWire(labels)| + 1 <= |msg|
    requires msg[at..end] == LabelWire(labels) + [0]
    ensures NameFrom(msg, at, msg) == Ok((Join(labels), end))
  {
    WireAtWindow(msg, at, labels, end);
    NameOfWire(msg, at, labels, end);
  }

  /** A name without empty parts (no leading, trailing or doubled dots) whose
      parts fit in 63 octets is encoded, and decodes to itself. */
  lemma CanonicalNameRoundTrip(name: Bytes)
    requires forall k :: 0 <= k < |Split(name)| ==> ShortLabel(Split(name)[k])
    ensures EncodedName(name).Ok?
    ensures Join(Labels(Split(name))) == name
  {
    EncodedNameSpec(name);
    LabelsOfNonEmpty(Split(name));
  }

  /** A pointer ends the name: the labels before it are followed by '.' and the
      name at its target, and reading resumes just past its two octets. */
  lemma PointerEndsName(src: Bytes, pos: nat, msg: Bytes)
    requires pos + 1 < |src| && src[pos] >= 0xC0
    ensures var target := TargetOf(src, pos);
      NameFrom(src, pos, msg) ==
        match Chase(msg, target, {})
        case Err(f) => Err(f)
        case Ok(dom) => Ok((dom, pos + 2))
  {
  }

  /** A pointer to a name stored in full elsewhere in the message reads as
      that name, and reading resumes just past the pointer's two octets. */
  lemma PointerToName(msg: Bytes, pos: nat, target: nat, labels: seq<Bytes>, end: nat)
    requires pos + 1 < |msg| && msg[pos] >= 0xC0
    requires target == TargetOf(msg, pos)
    requires Run(msg, target) == Ok((labels, Root, end))
    ensures NameFrom(msg, pos, msg) == Ok((Join(labels), pos + 2))
  {
    assert Run(msg, pos) == Ok(([], Pointer(pos, target), pos + 2));
    assert Chase(msg, target, {}) == Ok(Join(labels));
  }

  /** A name whose labels end in a pointer back to the start of the name is a
      loop: the source would recurse without end, and the read fails. */
  lemma PointerSelfLoop(msg: Bytes, pos: nat, labels: seq<Bytes>, at: nat, end: nat)
    requires Run(msg, pos) == Ok((labels, Pointer(at, pos), end))
    ensures NameFrom(msg, pos, msg) == Err(PointerLoop)
  {
    assert at < |msg|;
    assert Chase(msg, pos, {at}) == Err(PointerLoop);
    assert {} + {at} == {at};
    assert Chase(msg, pos, {}) == Err(PointerLoop);
  }

  /** An example of `PointerToName`: in `3 'c' 'o' 'm' 0 0xC0 0x00` the
      pointer at 5 names "com" at 0. */
  lemma PointerToEarlierName()
    ensures var msg: Bytes := [3, 0x63, 0x6F, 0x6D, 0, 0xC0, 0];
      NameFrom(msg, 5, msg) == Ok(([0x63, 0x6F, 0x6D], 7))
  {
    var msg: Bytes := [3, 0x63, 0x6F, 0x6D, 0, 0xC0, 0];
    assert Run(msg, 4) == Ok(([], Root, 5));
    assert msg[0] == 3 && msg[1..4] == [0x63, 0x6F, 0x6D];
    var r0 := Run(msg, 0);
    assert r0.Ok? && r0.value.0 == [msg[1..4]] && r0.value.1 == Root;
    PointerToName(msg, 5, 0, r0.value.0, r0.value.2);
  }

  /** An example of `PointerSelfLoop`, and why requiring only that a pointer
      names an offset before itself does not make decoding terminate: in
      `1 'a' 0xC0 0x00` the pointer at 2 names offset 0, whose label leads back
      to it. */
  lemma BackwardPointerLoop()
    ensures var msg: Bytes := [1, 0x61, 0xC0, 0];
      Run(msg, 2) == Ok(([], Pointer(2, 0), 4)) &&
      NameFrom(msg, 0, msg) == Err(PointerLoop)
  {
    var msg: Bytes := [1, 0x61, 0xC0, 0];
    assert Run(msg, 2) == Ok(([], Pointer(2, 0), 4));
    assert msg[0] == 1 && msg[1..2] == [0x61];
    var r0 := Run(msg, 0);
    assert r0.Ok? && r0.value.1 == Pointer(2, 0);
    PointerSelfLoop(msg, 0, r0.value.0, 2, r0.value.2);
  }

  // ---------------------------------------------------------------------------
  // Pointer following against the recursion of the source

  /** A run of labels fails only on a short read. */
  lemma {:induction false} RunFaults(src: Bytes, pos: nat)
    ensures Run(src, pos).Err? ==> Run(src, pos).fault == ShortRead
    decreases |src| - pos
  {
    if pos < |src| && 0 < src[pos] < 0xC0 && pos + 1 + src[pos] <= |src| {
      RunFaults(src, pos + 1 + src[pos]);
    }
  }

  /** A run ending in a pointer names the offset its two octets give. */
  lemma {:induction false} RunPointerTarget(src: Bytes, pos: nat)
    ensures Run(src, pos).Ok? && Run(src, pos).value.1.Pointer? ==>
      Run(src, pos).value.1.target == TargetOf(src, Run(src, pos).value.1.at)
    decreases |src| - pos
  {
    if pos < |src| && 0 < src[pos] < 0xC0 && pos + 1 + src[pos] <= |src| {
      RunPointerTarget(src, pos + 1 + src[pos]);
    }
  }

  /** `_getName(pOffset)` as the source writes it: the labels at `t`, and for
      a pointer the name read by the recursive call at its target, with no
      record of the pointers already followed. `fuel` bounds the depth of the
      recursion; `None` means it ran out before the recursion ended. */
  function Follow(msg: Bytes, t: nat, fuel: nat): (r: Option<Result<Bytes>>)
    ensures r.Some? && r.value.Err? ==> r.value.fault == ShortRead
    decreases fuel
  {
    if fuel == 0 then None
    else
      RunFaults(msg, t);
      match Run(msg, t)
      case Err(f) => Some(Err(f))
      case Ok((labels, Root, _)) => Some(Ok(Join(labels)))
      case Ok((labels, Pointer(_, t2), _)) =>
        match Follow(msg, t2, fuel - 1)
        case None => None
        case Some(Err(f)) => Some(Err(f))
        case Some(Ok(dom)) => Some(Ok(Attach(Join(labels), dom)))
  }

  /** The offset the source recurses to from `t`, if the labels there end in
      a pointer. */
  function Hop(msg: Bytes, t: nat): Option<nat>
  {
    match Run(msg, t)
    case Ok((_, Pointer(_, t2), _)) => Some(t2)
    case _ => None
  }

  /** The recursion step of the source in a given message. */
  function HopFn(msg: Bytes): nat -> Option<nat>
  {
    (u: nat) => Hop(msg, u)
  }

  /** The offset reached from `t` after `k` steps of `next`. */
  function Iterate(next: nat -> Option<nat>, t: nat, k: nat): Option<nat>
    decreases k
  {
    if k == 0 then Some(t)
    else
      match Iterate(next, t, k - 1)
      case None => None
      case Some(u) => next(u)
  }

  lemma {:induction false} IterateAdd(next: nat -> Option<nat>, t: nat, a: nat, b: nat, u: nat)
    requires Iterate(next, t, a) == Some(u)
    ensures Iterate(next, t, a + b) == Iterate(next, u, b)
    decreases b
  {
    if b > 0 {
      IterateAdd(next, t, a, b - 1, u);
    }
  }

  lemma {:induction false} IterateNone(next: nat -> Option<nat>, t: nat, a: nat, b: nat)
    requires Iterate(next, t, a) == None
    ensures Iterate(next, t, a + b) == None
    decreases b
  {
    if b > 0 {
      IterateNone(next, t, a, b - 1);
    }
  }

  /** An offset the recursion comes back to is never left: the source's
      recursion from it does not end, however deep it is allowed to go. */
  lemma {:induction false} CycleNeverEnds(msg: Bytes, t: nat, m: nat, fuel: nat)
    requires m >= 1 && Iterate(HopFn(msg), t, m) == Some(t)
    ensures Follow(msg, t, fuel) == None
    decreases fuel
  {
    if fuel > 0 {
      var t2 := FirstHop(msg, t, m, t);
      StepAfter(msg, t2, m - 1, t, t2);
      CycleNeverEnds(msg, t2, m, fuel - 1);
      FollowThrough(msg, t, t2, fuel);
    }
  }

  /** Whatever `Chase` returns other than `PointerLoop` is what the source's
      recursion returns, once it may go one level deeper than there are
      positions left to visit. */
  lemma {:induction false} ChaseAgrees(msg: Bytes, t: nat, visited: set<nat>, fuel: nat)
    requires forall p :: p in visited ==> p < |msg|
    requires Chase(msg, t, visited) != Err(PointerLoop)
    requires fuel + |visited| > |msg|
    ensures Follow(msg, t, fuel) == Some(Chase(msg, t, visited))
    decreases |msg| - |visited|
  {
    BoundedSetSize(visited, |msg|);
    match Run(msg, t)
    case Err(_) =>
    case Ok((_, Root, _)) =>
    case Ok((labels, Pointer(at, t2), _)) =>
      BoundedSetSize(visited + {at}, |msg|);
      assert |visited + {at}| == |visited| + 1;
      ChaseAgrees(msg, t2, visited + {at}, fuel - 1);
      assert Follow(msg, t, fuel) == match Follow(msg, t2, fuel - 1)
        case None => None
        case Some(Err(f)) => Some(Err(f))
        case Some(Ok(dom)) => Some(Ok(Attach(Join(labels), dom)));
      assert Chase(msg, t, visited) == match Chase(msg, t2, visited + {at})
        case Err(f) => Err(f)
        case Ok(dom) => Ok(Attach(Join(labels), dom));
  }

  /** A recursive call that never ends makes its caller never end. */
  lemma FollowThrough(msg: Bytes, t: nat, t2: nat, fuel: nat)
    requires fuel > 0 && Hop(msg, t) == Some(t2)
    requires Follow(msg, t2, fuel - 1) == None
    ensures Follow(msg, t, fuel) == None
  {
  }

  /** The first of `k` steps that lead somewhere. */
  lemma FirstHop(msg: Bytes, t: nat, k: nat, x: nat) returns (t2: nat)
    requires k > 0 && Iterate(HopFn(msg), t, k) == Some(x)
    ensures Hop(msg, t) == Some(t2) && Iterate(HopFn(msg), t2, k - 1) == Some(x)
  {
    if Hop(msg, t).None? {
      assert Iterate(HopFn(msg), t, 1) == None;
      IterateNone(HopFn(msg), t, 1, k - 1);
      assert false;
    }
    t2 := Hop(msg, t).value;
    assert Iterate(HopFn(msg), t, 1) == Some(t2);
    IterateAdd(HopFn(msg), t, 1, k - 1, t2);
  }

  /** An offset from which the recursion reaches a cycle after `k` steps is
      one from which it never ends. */
  lemma {:induction false} ReachCycleNeverEnds(msg: Bytes, t: nat, k: nat, x: nat, m: nat, fuel: nat)
    requires Iterate(HopFn(msg), t, k) == Some(x)
    requires m >= 1 && Iterate(HopFn(msg), x, m) == Some(x)
    ensures Follow(msg, t, fuel) == None
    decreases k
  {
    if k == 0 {
      CycleNeverEnds(msg, t, m, fuel);
    } else if fuel > 0 {
      var t2 := FirstHop(msg, t, k, x);
      ReachCycleNeverEnds(msg, t2, k - 1, x, m, fuel - 1);
      FollowThrough(msg, t, t2, fuel);
    }
  }

  /** `k` steps to `u` and one more reach what one step from `u` reaches. */
  lemma StepAfter(msg: Bytes, t: nat, k: nat, u: nat, x: nat)
    requires Iterate(HopFn(msg), t, k) == Some(u) && Hop(msg, u) == Some(x)
    ensures Iterate(HopFn(msg), t, k + 1) == Some(x)
  {
  }

  /** The followed pointers and, for each, the number of steps from its
      target to the current offset, after one more step through `at`. */
  function Shifted(steps: map<nat, nat>, at: nat): map<nat, nat>
  {
    (map a | a in steps :: steps[a] + 1)[at := 0]
  }

  lemma ShiftedReaches(msg: Bytes, t: nat, t2: nat, steps: map<nat, nat>, at: nat)
    requires Hop(msg, t) == Some(t2)
    requires at + 1 < |msg| && TargetOf(msg, at) == t2
    requires forall a :: a in steps ==> a + 1 < |msg| && Iterate(HopFn(msg), TargetOf(msg, a), steps[a]) == Some(t)
    ensures Shifted(steps, at).Keys == steps.Keys + {at}
    ensures forall a :: a in Shifted(steps, at) ==>
      a + 1 < |msg| && Iterate(HopFn(msg), TargetOf(msg, a), Shifted(steps, at)[a]) == Some(t2)
  {
    assert Iterate(HopFn(msg), t, 1) == Some(t2);
    forall a | a in Shifted(steps, at)
      ensures a + 1 < |msg| && Iterate(HopFn(msg), TargetOf(msg, a), Shifted(steps, at)[a]) == Some(t2)
    {
      if a != at {
        IterateAdd(HopFn(msg), TargetOf(msg, a), steps[a], 1, t);
      }
    }
  }

  /** A chase that ends in `PointerLoop` starts with labels ending in a
      pointer at `at` to `t2`; if that pointer was not followed before, the
      chase from `t2` ends in `PointerLoop` too. */
  lemma LoopStep(msg: Bytes, t: nat, visited: set<nat>) returns (at: nat, t2: nat)
    requires forall p :: p in visited ==> p < |msg|
    requires Chase(msg, t, visited) == Err(PointerLoop)
    ensures Hop(msg, t) == Some(t2) && at + 1 < |msg| && TargetOf(msg, at) == t2
    ensures at !in visited ==>
      (forall p :: p in visited + {at} ==> p < |msg|) && Chase(msg, t2, visited + {at}) == Err(PointerLoop)
    ensures at !in visited ==> |visited + {at}| == |visited| + 1 <= |msg|
  {
    var r := Run(msg, t);
    RunFaults(msg, t);
    RunPointerTarget(msg, t);
    assert r.Ok? && r.value.1.Pointer?;
    at, t2 := r.value.1.at, r.value.1.target;
    if at !in visited {
      BoundedSetSize(visited + {at}, |msg|);
    }
  }

  /** A step from `t` to `t2`, from which `t` is reached again, closes a
      cycle through `t2`. */
  lemma CloseLoop(msg: Bytes, start: nat, j: nat, t: nat, t2: nat, s: nat) returns (k: nat, x: nat, m: nat)
    requires Iterate(HopFn(msg), start, j) == Some(t) && Hop(msg, t) == Some(t2)
    requires Iterate(HopFn(msg), t2, s) == Some(t)
    ensures Iterate(HopFn(msg), start, k) == Some(x)
    ensures m >= 1 && Iterate(HopFn(msg), x, m) == Some(x)
  {
    StepAfter(msg, start, j, t, t2);
    StepAfter(msg, t2, s, t, t2);
    k, x, m := j + 1, t2, s + 1;
  }

  /** `Chase` reports `PointerLoop` only when the recursion has come back to a
      pointer it followed before: from `start`, which reaches `t` after `j`
      steps, it reaches after `k` steps an offset `x` that it reaches again
      after `m` more. `steps` records, for each followed pointer, how many
      steps lead from its target to `t`. */
  lemma {:induction false} ChaseLoopCycle(msg: Bytes, start: nat, j: nat, t: nat, visited: set<nat>, steps: map<nat, nat>)
    returns (k: nat, x: nat, m: nat)
    requires forall p :: p in visited ==> p < |msg|
    requires visited == steps.Keys
    requires forall a :: a in steps ==> a + 1 < |msg| && Iterate(HopFn(msg), TargetOf(msg, a), steps[a]) == Some(t)
    requires Iterate(HopFn(msg), start, j) == Some(t)
    requires Chase(msg, t, visited) == Err(PointerLoop)
    ensures Iterate(HopFn(msg), start, k) == Some(x)
    ensures m >= 1 && Iterate(HopFn(msg), x, m) == Some(x)
    decreases |msg| - |visited|
  {
    var at, t2 := LoopStep(msg, t, visited);
    if at in visited {
      k, x, m := CloseLoop(msg, start, j, t, t2, steps[at]);
    } else {
      StepAfter(msg, start, j, t, t2);
      ShiftedReaches(msg, t, t2, steps, at);
      k, x, m := ChaseLoopCycle(msg, start, j + 1, t2, visited + {at}, Shifted(steps, at));
    }
  }

  /** `Chase` is the source's recursion: it gives the name or the fault that
      recursion ends with, and `PointerLoop` exactly when the recursion never
      ends. */
  lemma ChaseIsRecursion(msg: Bytes, t: nat)
    ensures Chase(msg, t, {}) != Err(PointerLoop) ==> Follow(msg, t, |msg| + 1) == Some(Chase(msg, t, {}))
    ensures Chase(msg, t, {}) == Err(PointerLoop) ==> forall fuel: nat :: Follow(msg, t, fuel) == None
  {
    if Chase(msg, t, {}) != Err(PointerLoop) {
      ChaseAgrees(msg, t, {}, |msg| + 1);
    } else {
      var k, x, m := ChaseLoopCycle(msg, t, 0, t, {}, map[]);
      forall fuel: nat ensures Follow(msg, t, fuel) == None {
        ReachCycleNeverEnds(msg, t, k, x, m, fuel);
      }
    }
  }

  /** Pointers already followed do not change a read that succeeds. */
  lemma {:induction false} ChaseVisitedOk(msg: Bytes, t: nat, v: set<nat>, w: set<nat>)
    requires v <= w && forall p :: p in w ==> p < |msg|
    requires Chase(msg, t, w).Ok?
    ensures Chase(msg, t, v) == Chase(msg, t, w)
    decreases |msg| - |v|
  {
    match Run(msg, t)
    case Err(_) =>
    case Ok((_, Root, _)) =>
    case Ok((_, Pointer(at, t2), _)) =>
      BoundedSetSize(v + {at}, |msg|);
      BoundedSetSize(w + {at}, |msg|);
      ChaseVisitedOk(msg, t2, v + {at}, w + {at});
  }

  /** Labels ending in a pointer to labels that end in a pointer to a full
      name: the three are joined, and reading resumes after the first
      pointer. */
  lemma PointerChain(msg: Bytes, pos: nat, l1: seq<Bytes>, a1: nat, t1: nat, e1: nat,
                     l2: seq<Bytes>, a2: nat, t2: nat, e2: nat, l3: seq<Bytes>, e3: nat)
    requires Run(msg, pos) == Ok((l1, Pointer(a1, t1), e1))
    requires Run(msg, t1) == Ok((l2, Pointer(a2, t2), e2))
    requires Run(msg, t2) == Ok((l3, Root, e3))
    ensures NameFrom(msg, pos, msg) == Ok((Attach(Join(l1), Attach(Join(l2), Join(l3))), e1))
  {
    assert Chase(msg, t2, {a2}) == Ok(Join(l3));
    assert {} + {a2} == {a2};
    assert Chase(msg, t1, {}) == Ok(Attach(Join(l2), Join(l3)));
  }

  /** Two pointers leading to each other: the source recurses without end,
      and the read fails. */
  lemma PointerCycle(msg: Bytes, l1: seq<Bytes>, a1: nat, t1: nat, e1: nat,
                     l2: seq<Bytes>, a2: nat, t2: nat, e2: nat)
    requires Run(msg, t1) == Ok((l1, Pointer(a1, t2), e1))
    requires Run(msg, t2) == Ok((l2, Pointer(a2, t1), e2))
    ensures NameFrom(msg, t1, msg) == Err(PointerLoop)
  {
    RunPointerTarget(msg, t1);
    RunPointerTarget(msg, t2);
    if a1 == a2 {
      PointerSelfLoop(msg, t1, l1, a1, e1);
    } else {
      assert Chase(msg, t2, {a2} + {a1}) == Err(PointerLoop);
      assert Chase(msg, t1, {a2}) == Err(PointerLoop);
      assert {} + {a2} == {a2};
      assert Chase(msg, t2, {}) == Err(PointerLoop);
    }
  }
}
