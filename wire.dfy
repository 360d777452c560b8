/** Octets, fixed-width integers and the big-endian field codecs shared by the
    request serialiser and the response parser (Python's `struct` '!H' and '!L'
    formats and `str` slicing). */
module Wire {

  type byte = x: int | 0 <= x < 0x100
  type u16 = x: int | 0 <= x < 0x1_0000
  type u32 = x: int | 0 <= x < 0x1_0000_0000

  /** A Python 2 `str`, which is a string of octets. */
  type Bytes = seq<byte>

  /** Why an operation failed. */
  datatype Fault =
    | ShortRead                 // `struct.unpack` or `ord` on a slice that ran past the end
    | PointerLoop               // a compression-pointer chain that revisits a pointer: the recursion never ends
    | Unsupported(qtype: int)   // `ReqError` raised for a record type the parser does not know
    | LabelTooLong(part: Bytes) // `ReqError` raised when a label of a request name exceeds 63 octets
    | InvalidResult             // `ResError('Invalid DNS result')`, which wraps every parse failure

  datatype Result<+T> = Ok(value: T) | Err(fault: Fault)

  datatype Option<+T> = None | Some(value: T)

  /** `struct.pack('!H', n)`. */
  function Be16(n: u16): (b: Bytes)
    ensures |b| == 2
    ensures (b[0] as int) * 0x100 + b[1] == n
  {
    [n / 0x100, n % 0x100]
  }

  /** `struct.pack('!L', n)`. */
  function Be32(n: u32): (b: Bytes)
    ensures |b| == 4
    ensures (((b[0] as int) * 0x100 + b[1]) * 0x100 + b[2]) * 0x100 + b[3] == n
  {
    [n / 0x100_0000, (n / 0x1_0000) % 0x100, (n / 0x100) % 0x100, n % 0x100]
  }

  /** The Python slice `s[a:b]` for `0 <= a <= b`: it stops at the end of `s`
      and is empty when it starts past it. */
  function Slice(s: Bytes, a: nat, b: nat): (r: Bytes)
    requires a <= b
    ensures b <= |s| ==> r == s[a..b]
    ensures |s| < b ==> |r| < b - a || a == b
    ensures |r| <= b - a
    ensures forall k :: 0 <= k < |r| ==> a + k < |s| && r[k] == s[a + k]
  {
    if b <= |s| then s[a..b] else if a <= |s| then s[a..] else []
  }

  /** `struct.unpack('!H', s[pos:pos+2])`: fails unless the slice holds two octets. */
  function U16At(s: Bytes, pos: nat): (r: Result<u16>)
    ensures r.Ok? <==> pos + 2 <= |s|
  {
    var b := Slice(s, pos, pos + 2);
    if |b| == 2 then Ok((b[0] as int) * 0x100 + b[1]) else Err(ShortRead)
  }

  /** `struct.unpack('!L', s[pos:pos+4])`: fails unless the slice holds four octets. */
  function U32At(s: Bytes, pos: nat): (r: Result<u32>)
    ensures r.Ok? <==> pos + 4 <= |s|
  {
    var b := Slice(s, pos, pos + 4);
    if |b| == 4 then Ok((((b[0] as int) * 0x100 + b[1]) * 0x100 + b[2]) * 0x100 + b[3]) else Err(ShortRead)
  }

  /** Unpacking what `Be16` packed gives the number back, wherever it sits in a buffer. */
  lemma U16AtBe16(pre: Bytes, n: u16, post: Bytes)
    ensures U16At(pre + Be16(n) + post, |pre|) == Ok(n)
  {
    var s := pre + Be16(n) + post;
    assert Slice(s, |pre|, |pre| + 2) == Be16(n);
  }

  /** Unpacking what `Be32` packed gives the number back, wherever it sits in a buffer. */
  lemma U32AtBe32(pre: Bytes, n: u32, post: Bytes)
    ensures U32At(pre + Be32(n) + post, |pre|) == Ok(n)
  {
    var s := pre + Be32(n) + post;
    assert Slice(s, |pre|, |pre| + 4) == Be32(n);
  }

  /** A 16-bit number read where its `Be16` octets sit. */
  lemma U16AtWindow(s: Bytes, pos: nat, n: u16)
    requires pos + 2 <= |s| && s[pos..pos + 2] == Be16(n)
    ensures U16At(s, pos) == Ok(n)
  {
    assert s[pos] == Be16(n)[0] && s[pos + 1] == Be16(n)[1];
  }

  /** The four parts of a concatenation, each where it sits. */
  lemma Windows4(s: Bytes, a: Bytes, b: Bytes, c: Bytes, d: Bytes)
    requires s == a + b + c + d
    ensures s[..|a|] == a && s[|a|..|a| + |b|] == b
    ensures s[|a| + |b|..|a| + |b| + |c|] == c && s[|a| + |b| + |c|..] == d
  {
  }

  /** Packing is injective on 16-bit numbers, and the buffer decides the number:
      the two octets at `pos` are the `Be16` of what `U16At` reads. */
  lemma U16AtIsBe16(s: Bytes, pos: nat)
    requires pos + 2 <= |s|
    ensures Be16(U16At(s, pos).value) == s[pos..pos + 2]
  {
  }
}
