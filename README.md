# DNS message codec of pyresolv, in Dafny

This project models the DNS message codec of pyresolv, `pyresolv/dnsreqres.py`,
and proves properties of that model. The message format is the one of
section 4.1 of RFC 1035.

- `DnsRequest` builds a query. It writes a 12-octet header: the id, the flags
  word packed from the caller's fields, and the four counts. It then writes
  one question: the name as length-prefixed labels closed by a zero octet,
  followed by the 16-bit type and class.
- `DnsResult` parses a response with a cursor (`_bp`) over the octets. It
  reads the header and one question. When the response code is 0, and only
  then, it reads the answer, authority and additional records. It reads
  exactly as many records as the header counts say, in wire order. Each
  record's data is decoded by type: names are followed through compression
  pointers, and MX, A, NULL/TXT, SOA, MINFO and AAAA data are decoded too.
  Every failure while parsing becomes `ResError('Invalid DNS result')`.

Modules, in dependency order:

- `wire.dfy` (`Wire`): octets, `u16`/`u32`, the big-endian codecs of
  `struct` `'!H'`/`'!L'`, and Python's clamping slice.
- `names.dfy` (`Names`): the name encoder of the request. It also holds the
  name decoder of the response: label runs, compression pointers, and the
  three sources `_getName` can read from.
- `headers.dfy` (`Headers`): the flags word, the header, and the
  response-code names.
- `rdata.dfy` (`RecordData`): record data by type. This includes the decimal
  and hexadecimal text the parser builds for A and AAAA addresses.
- `request.dfy` (`Request`): the `DnsRequest` class. Its buffer is a `seq`
  field that the methods extend.
- `response.dfy` (`Response`): the `DnsResult` class. It holds the cursor
  and the fields the parser fills. The module also has a pure
  specification, `ParseResponse`, of what the class computes, and the lemmas
  about it, including the round trip from a request to its parse.

Each method of the two classes is proved against a specification function.
The properties are proved about those functions. The record types and
response codes use the values of section 3.2.2 and section 4.1.1 of
RFC 1035, and AAAA is 28 (section 2.1 of RFC 3596). `pyresolv/__init__.py`,
which defines these constants, is not part of this model.

Some behaviour of the code decides what the model does:

- The encoder checks each label against 63 octets. It does not check the
  whole name: section 2.3.4 of RFC 1035 limits a name to 255 octets, and a
  longer name is encoded all the same.
- A record type without a branch in `_procRawData` raises `ReqError`, which
  becomes the parse failure.
- Record data cut short by the end of the message is taken as the short
  slice, because `_getBytes` slices without checking. Only reads that need
  the missing octets fail.
- A name-type record with empty data reads its name at the message cursor,
  because `if data` is false for an empty string. The cursor then moves.
- The question count in the header is not used: exactly one question is read.

## Model

| member | source | states |
|---|---|---|
| Wire.Be16 | pyresolv/dnsreqres.py:70-71 | `struct.pack('!H', n)` is two octets, the high one first, whose base-256 value is `n` |
| Wire.Be32 | pyresolv/dnsreqres.py:147-150 | the `'!L'` layout that `_get32bit` unpacks: four octets, the most significant first, whose base-256 value is `n` |
| Wire.Slice | pyresolv/dnsreqres.py:152-156 | the slice `rawBuf[a:b]` clamps at the end of the message: it is exactly `s[a..b]` when `b` is inside, comes out short otherwise, and every octet it holds is the octet at the same offset of `s` |
| Wire.U16At | pyresolv/dnsreqres.py:142-145 | `struct.unpack('!H')` at a position succeeds exactly when two octets are there |
| Wire.U32At | pyresolv/dnsreqres.py:147-150 | `struct.unpack('!L')` at a position succeeds exactly when four octets are there |
| Wire.U16AtBe16 | pyresolv/dnsreqres.py:70-71 | reading back a packed 16-bit value anywhere in a message gives the value: unpacking inverts `_get16bit` of the request |
| Wire.U32AtBe32 | pyresolv/dnsreqres.py:147-150 | reading back four big-endian octets of a 32-bit value gives the value |
| Wire.U16AtIsBe16 | pyresolv/dnsreqres.py:142-145 | every two octets are the packing of the value read from them: packing inverts unpacking |
| Names.Split | pyresolv/dnsreqres.py:75 | `name.split('.')` yields at least one part, no part holds a dot, and joining the parts with dots gives the name back |
| Names.Labels | pyresolv/dnsreqres.py:76 | the parts kept by `if part:` are the non-empty parts, each kept as often as it occurs (equal multisets once empty parts are removed) |
| Names.LabelsAppend | pyresolv/dnsreqres.py:75-76 | keeping the non-empty parts of two runs of parts keeps them run by run, so the labels come out in the order of the parts |
| Names.EncodeParts | pyresolv/dnsreqres.py:75-83 | the loop over the parts succeeds only when no part is longer than 63 octets, and a failure names one of the parts, longer than 63 octets |
| Names.EncodedName | pyresolv/dnsreqres.py:73-84 | an encoded name ends with the zero octet and no dot-separated part of the name was longer than 63 octets; a failure names a dot-free part longer than 63 |
| Names.EncodePartsSpec | pyresolv/dnsreqres.py:73-84 | encoding succeeds iff no part is longer than 63 octets; it then gives each non-empty part prefixed by its length, and otherwise fails naming a part longer than 63 |
| Names.EncodePartsFailsEarly | pyresolv/dnsreqres.py:79-81 | once a prefix of the parts raised, the parts after it change nothing |
| Names.EncodePartsFirstLong | pyresolv/dnsreqres.py:75-83 | the error names exactly the first part longer than 63 octets, whatever follows it |
| Names.EncodedNameSpec | pyresolv/dnsreqres.py:73-84 | `_getName` of the request succeeds iff every dot-separated part has at most 63 octets; the result is the length-prefixed labels followed by a zero octet |
| Names.Run | pyresolv/dnsreqres.py:193-242 | a run of labels ends strictly after where it began and inside the source; its labels have 1 to 191 octets; a pointer ends it two octets after the pointer with a 14-bit target, and a zero octet ends it just past that zero |
| Names.NameFrom | pyresolv/dnsreqres.py:188-242 | a name read succeeds only inside the source, and the position it returns lies strictly after where it began |
| Names.GetName | pyresolv/dnsreqres.py:188-202 | a name read from non-empty data never moves the message cursor and returns an offset; one read at the cursor with no offset returns no offset and moves the cursor forward, staying inside the message |
| Names.JoinSnoc | pyresolv/dnsreqres.py:239-242 | appending a label to a non-empty name puts one dot before it |
| Names.JoinEmpty | pyresolv/dnsreqres.py:216-219 | a name made of non-empty labels is empty iff there are no labels, which decides between `qname = dom` and `qname += '.' + dom` |
| Names.LabelWireSnoc | pyresolv/dnsreqres.py:82 | encoding one more label appends its length octet and its octets |
| Names.LabelsOfNonEmpty | pyresolv/dnsreqres.py:76 | when no part is empty, every part is kept |
| Names.WireAtWindow | pyresolv/dnsreqres.py:82-83 | an encoded label sequence placed anywhere in a message lays its labels out one after the other, each after its length octet, up to the zero octet |
| Names.RunOfWire | pyresolv/dnsreqres.py:229-242 | the decoder reads back exactly the labels laid out that way, ends at the zero octet and returns the position after it |
| Names.NameRoundTrip | pyresolv/dnsreqres.py:188-242 | decoding an encoded name placed anywhere in a message gives the name with empty parts dropped, and the position just after the encoding |
| Names.EncodedWire | pyresolv/dnsreqres.py:73-84 | a successful encoding is the length-prefixed labels of the name, each at most 63 octets, then a zero octet |
| Names.NameOfWire | pyresolv/dnsreqres.py:224-242 | labels laid out up to a zero octet decode to their dot-joined name and the position after the zero |
| Names.NameOfLabelWire | pyresolv/dnsreqres.py:224-242 | the same, for an encoded label sequence placed in a window of the message |
| Names.CanonicalNameRoundTrip | pyresolv/dnsreqres.py:73-84 | a name without empty parts and with parts of 1 to 63 octets encodes, and its labels joined with dots are that name again, so decoding its encoding gives it back exactly |
| Names.PointerEndsName | pyresolv/dnsreqres.py:203-223 | an octet with both top bits set opens a pointer: the name is the one at the 14-bit target, read with its own pointers followed, and the read ends two octets later |
| Names.Attach | pyresolv/dnsreqres.py:216-219 | the name with a pointer's name attached is empty only when both are, and no shorter than the two together |
| Names.Chase | pyresolv/dnsreqres.py:214-215 | the name at a pointer's target, read with its own pointers followed, is read only when the target lies inside the message |
| Names.RunFaults | pyresolv/dnsreqres.py:193-242 | a run of labels fails only on a short read |
| Names.RunPointerTarget | pyresolv/dnsreqres.py:203-214 | labels ending in a pointer name the 14-bit offset of the pointer's two octets |
| Names.Follow | pyresolv/dnsreqres.py:193-223 | the source's recursion: the labels at the offset and, for a pointer, the name read at its target attached, with no record of pointers already followed; `None` when the depth bound runs out, and a fault is only ever a short read |
| Names.ChaseAgrees | pyresolv/dnsreqres.py:193-223 | any result of `Chase` other than `PointerLoop` is what `Follow`, the source's recursion `dom = self._getName(pOffset)`, returns given enough depth, whatever pointers were already followed |
| Names.CycleNeverEnds | pyresolv/dnsreqres.py:214-215 | from an offset the recursion comes back to, `Follow` is `None` at every depth |
| Names.ReachCycleNeverEnds | pyresolv/dnsreqres.py:214-215 | from an offset that leads to such a cycle, the source's recursion never ends either |
| Names.ChaseLoopCycle | pyresolv/dnsreqres.py:214-215 | `PointerLoop` is reported only when the pointers followed lead back to a cycle |
| Names.ChaseIsRecursion | pyresolv/dnsreqres.py:193-223 | `Chase` is the source's recursion `Follow`: the same name or fault as `Follow` at a depth of one more than the message length when it is not `PointerLoop`, and `PointerLoop` exactly when `Follow` is `None` at every depth |
| Names.ChaseVisitedOk | pyresolv/dnsreqres.py:214-215 | the pointers already followed do not change a read that succeeds |
| Names.PointerChain | pyresolv/dnsreqres.py:203-223 | labels ending in a pointer to labels that end in a pointer to a full name read as the three joined, resuming after the first pointer |
| Names.PointerCycle | pyresolv/dnsreqres.py:203-223 | two runs of labels whose pointers lead to each other give `PointerLoop`, where the source recurses without end |
| Names.PointerToName | pyresolv/dnsreqres.py:203-223 | a pointer to a name stored in full anywhere in the message reads as that name, and the read resumes two octets after the pointer |
| Names.PointerSelfLoop | pyresolv/dnsreqres.py:203-215 | labels that end in a pointer back to the start of their own name form a loop: the read fails with `PointerLoop` instead of recursing without end |
| Names.PointerToEarlierName | pyresolv/dnsreqres.py:203-223 | example of PointerToName: in the octets 3 `c` `o` `m` 0 0xC0 0x00 the pointer at 5 reads as "com" |
| Names.BackwardPointerLoop | pyresolv/dnsreqres.py:214-215 | example of PointerSelfLoop: in 1 `a` 0xC0 0x00 the pointer at 2 names offset 0, which lies before it, and the read still fails as a loop |
| Headers.Masked | pyresolv/dnsreqres.py:88-91 | masking leaves every field within its width |
| Headers.UnpackFlags | pyresolv/dnsreqres.py:282-289 | every field unpacked from a flags word is within its width |
| Headers.PackFlags | pyresolv/dnsreqres.py:88-91 | the packed flags word unpacks to every field masked to its width: out-of-range fields are masked, not rejected |
| Headers.PackUnpackFlags | pyresolv/dnsreqres.py:282-289 | packing the fields unpacked from any 16-bit word gives the word back |
| Headers.PackFlagsInjective | pyresolv/dnsreqres.py:88-91 | two flag sets within their widths that pack to the same word are equal |
| Headers.MaskedFits | pyresolv/dnsreqres.py:88-91 | masking changes no field that already fits its width |
| Headers.HeaderBytes | pyresolv/dnsreqres.py:86-95 | the written header is 12 octets |
| Headers.HeaderAt | pyresolv/dnsreqres.py:279-293 | the header reads exactly when twelve octets are at the cursor, and its flag fields are within their widths |
| Headers.HeaderOfWords | pyresolv/dnsreqres.py:279-293 | proof step, unfolding the definition: the header is its six 16-bit words read in order, the second one unpacked into flags |
| Headers.HeaderRoundTrip | pyresolv/dnsreqres.py:86-95 | reading back a written header gives the same id and counts and the flags masked to their widths, whatever follows it |
| Headers.HeaderAtPrefix | pyresolv/dnsreqres.py:279-293 | the same for a header at the front of a longer message |
| Headers.ErrStr | pyresolv/dnsreqres.py:158-172 | the name is "OK" iff the code is 0, and "UNKNOWNERROR" iff the code is outside 0 to 5 |
| Headers.ErrStrDistinct | pyresolv/dnsreqres.py:158-172 | the six known codes have six distinct names |
| RecordData.Digits | pyresolv/dnsreqres.py:256-258 | the text of a number has at least one digit |
| RecordData.DigitsValue | pyresolv/dnsreqres.py:256-258 | the decimal (or hexadecimal) text of a number reads back as the number |
| RecordData.DigitsWellFormed | pyresolv/dnsreqres.py:256-258 | that text holds only digits of its base and has no leading zero |
| RecordData.QuadPieceDots | pyresolv/dnsreqres.py:253-258 | `QuadPiece`, the text of one A octet, holds a `.` exactly when the octet is one of the first three |
| RecordData.DottedQuadDots | pyresolv/dnsreqres.py:252-259 | `DottedQuad`, the A text, holds one `.` per octet up to three, so three for a four-octet address |
| RecordData.DottedQuadOfFour | pyresolv/dnsreqres.py:252-259 | the text of four address octets is their four decimal numbers separated by three dots |
| RecordData.HexTextColons | pyresolv/dnsreqres.py:268-274 | `HexText`, the AAAA text, holds one colon for each even index between 1 and 14 in the data, so seven for 16 octets |
| RecordData.HexPieceColons | pyresolv/dnsreqres.py:270-273 | `HexPiece`, the text of one AAAA octet, holds a colon iff its index is even and strictly between 0 and 15 |
| RecordData.DigitsHaveNo | pyresolv/dnsreqres.py:271 | the text of a number holds no character other than digits, so no colon |
| RecordData.Soa | pyresolv/dnsreqres.py:174-186 | SOA data never moves the cursor backwards |
| RecordData.RDataOf | pyresolv/dnsreqres.py:244-277 | decoding record data never moves the cursor backwards |
| RecordData.RDataUnsupported | pyresolv/dnsreqres.py:275-277 | data is refused as unsupported iff its type has no branch; a supported type fails only on a short read or a pointer loop |
| RecordData.NameFaults | pyresolv/dnsreqres.py:188-242 | a name read fails only on a short read or a pointer loop |
| RecordData.NameFromFaults | pyresolv/dnsreqres.py:188-242 | the same for a name read from a given source |
| RecordData.ChaseFaults | pyresolv/dnsreqres.py:214-215 | following pointers fails only on a short read or a loop |
| RecordData.AddressRecord | pyresolv/dnsreqres.py:252-259 | A data of four octets is their dotted decimal text, and the cursor stays |
| RecordData.AddressExample | pyresolv/dnsreqres.py:252-259 | the octets 93, 184, 216, 34 give "93.184.216.34" |
| RecordData.RawRecord | pyresolv/dnsreqres.py:260-261 | NULL and TXT data are returned unchanged |
| RecordData.MailExchangeRecord | pyresolv/dnsreqres.py:248-251 | MX data shorter than two octets fails; with more than two it is the 16-bit preference and the name read from the rest, the cursor staying; with exactly two the name is read at the message cursor, which moves past it; a failing name read is the record's failure |
| RecordData.MailInfoRecord | pyresolv/dnsreqres.py:262-265 | MINFO data is two names, the second read from where the first stopped; the cursor stays, and a failing read is the record's failure |
| RecordData.EmptyMailInfoReadsCursor | pyresolv/dnsreqres.py:262-265 | empty MINFO data makes both names read at the message cursor, one after the other, and the cursor moves past both |
| RecordData.EmptyNameDataReadsCursor | pyresolv/dnsreqres.py:195-202 | a name-type record with empty data reads a name at the message cursor and moves the cursor past it |
| RecordData.CountersRoundTrip | pyresolv/dnsreqres.py:177-185 | the five SOA counters written in order read back in order |
| RecordData.CountersAfter | pyresolv/dnsreqres.py:177-185 | the same, after any prefix |
| RecordData.SoaOfParts | pyresolv/dnsreqres.py:174-186 | proof step, unfolding the definition: SOA data is the two names, each read from where the previous read stopped, and then five 32-bit counters |
| RecordData.NameInData | pyresolv/dnsreqres.py:188-242 | an encoded name inside record data decodes to its name and the offset after it, and the message cursor stays |
| RecordData.SoaReads | pyresolv/dnsreqres.py:174-186 | each read of the SOA decoder over written SOA data gives the written value |
| RecordData.SoaRoundTrip | pyresolv/dnsreqres.py:174-186 | written SOA data (two encoded names and five counters) decodes to the same names and counters |
| Request.RequestHeader | pyresolv/dnsreqres.py:35-38 | a request carries the chosen id, one question and no records |
| Request.RequestWire | pyresolv/dnsreqres.py:86-100 | a request fails only with a label longer than 63 octets; a built one has at least 17 octets and ends with the 16-bit type and class |
| Request.RequestLayout | pyresolv/dnsreqres.py:86-100 | a request is built iff no part of its name exceeds 63 octets, and fails naming such a part otherwise; it is the header, then the encoded name, then type and class, 12 + n + 4 octets |
| Request.DnsRequest.Init | pyresolv/dnsreqres.py:20-40 | sets the fields from the query, with `z` 0, one question and no records, and the buffer is the header |
| Request.DnsRequest.AddHeader | pyresolv/dnsreqres.py:86-95 | the buffer grows by the header of the fields |
| Request.DnsRequest.EncodeName | pyresolv/dnsreqres.py:73-84 | the loop over the parts computes the encoding, or the error of the first part over 63 octets |
| Request.DnsRequest.AddQuestion | pyresolv/dnsreqres.py:97-100 | the buffer grows by the encoded name, type and class; when the name raises, it is unchanged |
| Request.DnsRequest.New | pyresolv/dnsreqres.py:20-41 | a request object exists iff its octets can be built, and its buffer then holds them; otherwise the name's error is returned |
| Request.DnsRequest.GetBuf | pyresolv/dnsreqres.py:55-56 | the buffer is the whole request, 12 + n + 4 octets |
| Response.QuestionAt | pyresolv/dnsreqres.py:295-298 | the question ends at least five octets on and inside the message |
| Response.RecordHead | pyresolv/dnsreqres.py:302-306 | the fixed part of a record takes at least 11 octets inside the message |
| Response.RecordAt | pyresolv/dnsreqres.py:300-309 | a record takes at least 11 octets, and its fixed part lies inside the message |
| Response.Repeat | pyresolv/dnsreqres.py:301 | a run of reads that succeeds gives exactly `count` items |
| Response.RepeatBounds | pyresolv/dnsreqres.py:301-309 | a run of `count` reads of at least 11 octets each takes at least `11 * count` octets and ends inside the message |
| Response.RepeatAppend | pyresolv/dnsreqres.py:136-138 | reading `a + b` items is reading `a` and then `b` from where they end |
| Response.Records | pyresolv/dnsreqres.py:300-309 | `_extractData(count)` gives exactly `count` records and ends at least `11 * count` octets on, inside the message |
| Response.RecordOfFixed | pyresolv/dnsreqres.py:307-309 | `RecordWith`, the record with a given fixed part: it carries the name, type, class and TTL of the fixed part, its data is the decoding of the `rdlen` octets after the fixed part, and the cursor ends no earlier than the end of those octets |
| Response.RecordsStep | pyresolv/dnsreqres.py:301-309 | the first record read decides: its failure is the run's failure, otherwise it comes first and the rest follow it |
| Response.RecordsAppend | pyresolv/dnsreqres.py:136-138 | two runs of records read one after the other are one run of their total count |
| Response.Sections | pyresolv/dnsreqres.py:136-138 | the three sections hold exactly the counts asked for |
| Response.ParseResponse | pyresolv/dnsreqres.py:103-140 | every failure is `ResError('Invalid DNS result')`; a parse gives `errno` equal to the response code and `error` its name |
| Response.ParseOfParts | pyresolv/dnsreqres.py:125-140 | proof step, unfolding the definition: after the header and question, a non-zero code ends the parse with empty sections, and code 0 reads the sections or fails |
| Response.ParseFailsEarly | pyresolv/dnsreqres.py:125-129 | a header or question that does not read makes the parse fail |
| Response.ParseWithoutSections | pyresolv/dnsreqres.py:130-133 | with a non-zero code the parse is the header and question with empty sections |
| Response.ParseWithSections | pyresolv/dnsreqres.py:133-138 | with code 0 and sections that read, the parse holds those sections |
| Response.ParseSectionsFail | pyresolv/dnsreqres.py:135-140 | with code 0 and sections that fail, the parse fails |
| Response.RcodeGate | pyresolv/dnsreqres.py:133-140 | a parse with a non-zero code has no records; one with code 0 has exactly the counts of the header in each section |
| Response.ErrorResponseIgnoresSections | pyresolv/dnsreqres.py:133 | with a non-zero code, whatever follows the question changes nothing in the parse |
| Response.PrefixStable | pyresolv/dnsreqres.py:279-298 | the header and question read the same when octets are appended to the message |
| Response.U16AtExtend | pyresolv/dnsreqres.py:142-145 | a 16-bit read that succeeds is unchanged by appending octets |
| Response.NameFromExtend | pyresolv/dnsreqres.py:188-242 | a name read that succeeds is unchanged by appending octets |
| Response.RunExtend | pyresolv/dnsreqres.py:193-242 | a run of labels that succeeds is unchanged by appending octets |
| Response.ChaseExtend | pyresolv/dnsreqres.py:214-215 | following pointers that succeeds is unchanged by appending octets |
| Response.ShortResponse | pyresolv/dnsreqres.py:125-129 | a message shorter than 17 octets, the header and a minimal question, is invalid |
| Response.SectionsSize | pyresolv/dnsreqres.py:136-138 | sections with records take at least 11 octets per record, inside the message |
| Response.SectionsInWireOrder | pyresolv/dnsreqres.py:136-138 | answers, authority and additional together are the records read in one run of their total count: wire order |
| Response.RepeatThree | pyresolv/dnsreqres.py:136-138 | three runs read one after the other are one run of the total count |
| Response.RequestRoundTrip | pyresolv/dnsreqres.py:295-298 | parsing a built request gives its header with masked flags, its name with empty parts dropped, its type and class, and no records |
| Response.RequestParts | pyresolv/dnsreqres.py:97-100 | in a built request, the header reads back at 0 and the question at 12, ending at 12 + n + 4 |
| Response.QuestionOfParts | pyresolv/dnsreqres.py:295-298 | proof step, unfolding the definition: a question is a name, then the type and the class |
| Response.CanonicalRequestRoundTrip | pyresolv/dnsreqres.py:20-41 | a request for a name without empty parts is built and parses back to the same name and id |
| Response.DnsResult.constructor | pyresolv/dnsreqres.py:103-124 | the defaults before parsing: cursor 0, no header, empty name, type and class 0, empty sections |
| Response.DnsResult.GetBytes | pyresolv/dnsreqres.py:152-156 | the slice at the cursor, which moves on by `num` even when the slice is short; the slice is complete iff the octets are there |
| Response.DnsResult.Get16 | pyresolv/dnsreqres.py:142-145 | the 16-bit read at the cursor, which moves on by 2 |
| Response.DnsResult.Get32 | pyresolv/dnsreqres.py:147-150 | the 32-bit read at the cursor, which moves on by 4 |
| Response.DnsResult.GetName | pyresolv/dnsreqres.py:188-242 | the name read from the source chosen by `data` and `offset`, and the cursor moved only when it was the source |
| Response.DnsResult.ReadName | pyresolv/dnsreqres.py:193-242 | the loop of `_getName` reads the name, moving the cursor when it reads at the cursor and leaving it otherwise |
| Response.DnsResult.ReadLabels | pyresolv/dnsreqres.py:193-242 | the loop over the labels computes the joined labels and what ended them, or the short read |
| Response.DnsResult.GetSoa | pyresolv/dnsreqres.py:174-186 | the SOA data read as specified |
| Response.DnsResult.ProcRawData | pyresolv/dnsreqres.py:244-277 | the record data decoded as specified, with the cursor where the decoding leaves it |
| Response.DnsResult.ReadHeader | pyresolv/dnsreqres.py:279-293 | the header at the cursor, which moves on by 12 |
| Response.DnsResult.ExtractHeader | pyresolv/dnsreqres.py:279-293 | the header read is stored in the fields |
| Response.DnsResult.ExtractQuestion | pyresolv/dnsreqres.py:295-298 | the question read is stored in the fields, and the cursor is after it |
| Response.DnsResult.ExtractHead | pyresolv/dnsreqres.py:302-306 | the fixed part of the record at the cursor, and the cursor at its data |
| Response.DnsResult.ExtractRecord | pyresolv/dnsreqres.py:302-309 | the record and the new cursor are `RecordAt` at the old cursor, or its failure is `RecordAt`'s; with `left` records still to read, that record is the first of them and the other `left - 1` follow from the new cursor |
| Response.DnsResult.ExtractData | pyresolv/dnsreqres.py:300-309 | the loop reads `count` records as specified, in order, and leaves the cursor after them; a failure is the failure of `Records` |
| Response.DnsResult.ExtractSections | pyresolv/dnsreqres.py:135-138 | the three sections are read with the counts of the header and stored, as specified |
| Response.DnsResult.GetErrStr | pyresolv/dnsreqres.py:158-172 | the name `ErrStr` gives `errno`, "OK" iff it is 0 |
| Response.DnsResult.ParseHead | pyresolv/dnsreqres.py:125-132 | the header and question are read and stored, `errno` and `error` set; it fails iff one of the two does not read |
| Response.DnsResult.New | pyresolv/dnsreqres.py:103-140 | a parser object exists iff the message parses, its fields then show the parse, and every failure is `InvalidResult` |
| Response.RunCutShort | pyresolv/dnsreqres.py:196-238 | a label or pointer running past the end of the source is a short read |
| Response.RunEndsAtRoot | pyresolv/dnsreqres.py:224-228 | a zero octet ends the name just past it |
| Response.RunEndsAtPointer | pyresolv/dnsreqres.py:203-223 | a pointer ends the labels two octets later, naming the 14-bit target |
| Response.RunNextLabel | pyresolv/dnsreqres.py:229-242 | a length octet adds the label after it and moves the read past it |
| Response.GetNameByNameFrom | pyresolv/dnsreqres.py:188-202 | proof step, unfolding the definition: `_getName` reads from non-empty data, else from the offset in the message, else at the cursor |

## Left out

- `pyresolv/adns.py`, `pyresolv/dns.py` and `pyresolv/basedns.py` are not part of this model. Sockets, timeouts and the resolver loop are I/O.
- `test()` is left out. It opens a socket and prints.
- The random id of `_getId` is an input (`Query.id`), because randomness is not modelled.
- `close`, `__del__`, `DnsRequest.__str__` and `getBuffer` are left out: they release the `StringIO` buffer or repeat `getBuf`.
- `DnsResult.__str__` is left out: it returns `repr(self.answers)`, the Python text form of the answers.
- Names.EncodedNameSpec: the `part.encode('utf8')` step is left out, and names are octet strings. For a Python 2 `str` that call first decodes the part as ASCII. A part holding an octet of 0x80 or more therefore raises `UnicodeDecodeError` at line 77 of `pyresolv/dnsreqres.py`, which is not `ReqError` and is not caught. The model encodes such a part, so "succeeds iff every part has at most 63 octets" (here and in `Names.EncodedName`, `Request.RequestLayout` and `Request.DnsRequest.New`) holds in the source only for ASCII names. A `unicode` name corresponds to the model's name made of its UTF-8 octets.
- Request.Query: the default arguments of `DnsRequest.__init__` are not modelled: type A, class IN, `rd` 1 and the other flags 0. The caller gives every field.
- Request.Query: `qtype` and `qclass` are typed as 16-bit values. The source passes any `int` to `struct.pack`, which raises for values out of range.
- Names.Chase: Python's recursion limit is not modelled. A chain of pointers that revisits a pointer is reported as `PointerLoop` at once, where the source recurses until the interpreter gives up (which also ends as `ResError`); `Names.ChaseIsRecursion` proves that this happens exactly when the recursion, written out as `Names.Follow` with a depth bound, never ends. A very long chain without a loop is followed to its end.
- Response.DnsResult.New: after a failure the object is not returned, so the partial state of the fields is not modelled. This includes the cursor left mid-name.
- Response.DnsResult: the id, flag fields and counts are kept as one `header` field. Its `None` stands for the defaults (an id of -1 and zeros).
- Response.DnsResult.ExtractData returns the records it read. It does not append to a list argument; the caller stores them in the section.
