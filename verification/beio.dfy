/** The big-endian cursor over the immutable blob (Python class `BER`) and the
    frame-header reader built on it (`read_frame_header`).

    A Python call that raises is modelled as an `Err` carrying the cursor
    position at the moment of the raise, because the frame walker resumes
    one byte after exactly that position.
 */
module ByteIO {
  import opened Wrappers

  /** One byte of the input buffer. */
  type byte = b: int | 0 <= b < 256

  const TWO_32: nat := 0x1_0000_0000

  /** An IEEE-754 single kept as its raw 32-bit word: the decoder performs no
      float arithmetic, so only the bit pattern matters. */
  datatype Float32 = Float32(bits: nat)

  /** The two exceptions the primitive readers raise. */
  datatype DecodeError =
      /** `struct.error`: fewer than 4 bytes of the BUFFER remain at `cursor`. */
    | ShortRead(cursor: nat)
      /** `ValueError` from `read_frame_header`: the declared payload runs past
          the region end; `cursor` is already 8 bytes past the tag start. */
    | FrameOverrun(cursor: nat, size: nat)

  type Outcome<T> = Result<T, DecodeError>

  function Min(a: int, b: int): int {
    if a <= b then a else b
  }

  // ---------------------------------------------------------------------------
  // Big-endian words

  /** The unsigned big-endian word stored in the 4 bytes at `off`. */
  function U32At(data: seq<byte>, off: nat): (v: nat)
    requires off + 4 <= |data|
    ensures v < TWO_32
  {
    ((data[off] as int * 0x100 + data[off + 1] as int) * 0x100 + data[off + 2] as int) * 0x100 + data[off + 3] as int
  }

  /** The 4 big-endian bytes of an unsigned 32-bit word. */
  function U32Bytes(v: nat): (bs: seq<byte>)
    requires v < TWO_32
    ensures |bs| == 4
  {
    var q1 := v / 0x100;
    var q2 := q1 / 0x100;
    [q2 / 0x100, q2 % 0x100, q1 % 0x100, v % 0x100]
  }

  /** The word the 4 bytes of `U32Bytes(v)` spell is `v`. */
  lemma U32BytesValue(v: nat)
    requires v < TWO_32
    ensures var bs := U32Bytes(v);
            ((bs[0] as int * 0x100 + bs[1] as int) * 0x100 + bs[2] as int) * 0x100 + bs[3] as int == v
  {
    var q1 := v / 0x100;
    var q2 := q1 / 0x100;
    assert v == q1 * 0x100 + v % 0x100;
    assert q1 == q2 * 0x100 + q1 % 0x100;
    assert q2 == (q2 / 0x100) * 0x100 + q2 % 0x100;
  }

  /** Decoding the encoding of a word gives the word back. */
  lemma U32RoundTrip(data: seq<byte>, off: nat, v: nat)
    requires v < TWO_32
    requires off + 4 <= |data| && data[off..off + 4] == U32Bytes(v)
    ensures U32At(data, off) == v
  {
    var bs := U32Bytes(v);
    assert data[off] == bs[0] && data[off + 1] == bs[1];
    assert data[off + 2] == bs[2] && data[off + 3] == bs[3];
    U32BytesValue(v);
  }

  /** Encoding the word read at `off` reproduces the 4 bytes there. */
  lemma U32BytesOfWord(data: seq<byte>, off: nat)
    requires off + 4 <= |data|
    ensures U32Bytes(U32At(data, off)) == data[off..off + 4]
  {
    var v := U32At(data, off);
    var a: int, b: int, c: int, d: int := data[off], data[off + 1], data[off + 2], data[off + 3];
    var q2 := a * 0x100 + b;
    var q1 := q2 * 0x100 + c;
    assert v == q1 * 0x100 + d;
    assert v / 0x100 == q1 && v % 0x100 == d;
    assert q1 / 0x100 == q2 && q1 % 0x100 == c;
    assert q2 / 0x100 == a && q2 % 0x100 == b;
  }

  // ---------------------------------------------------------------------------
  // Text

  /** `bytes.decode("ascii", errors="ignore")`: bytes of 128 and above are dropped. */
  function AsciiDecode(bs: seq<byte>): (s: string)
    ensures |s| <= |bs|
  {
    if bs == [] then []
    else if bs[0] < 128 then [bs[0] as char] + AsciiDecode(bs[1..])
    else AsciiDecode(bs[1..])
  }

  /** Pure ASCII decodes character for character; each byte of 128 or more
      shortens the text by one. */
  lemma {:induction false} AsciiDecodeOfAscii(bs: seq<byte>)
    ensures (forall i :: 0 <= i < |bs| ==> bs[i] < 128) ==>
              |AsciiDecode(bs)| == |bs| && forall i :: 0 <= i < |bs| ==> AsciiDecode(bs)[i] as int == bs[i]
    ensures (exists i :: 0 <= i < |bs| && bs[i] >= 128) ==> |AsciiDecode(bs)| < |bs|
  {
    if bs != [] {
      AsciiDecodeOfAscii(bs[1..]);
      assert forall i :: 1 <= i < |bs| ==> bs[1..][i - 1] == bs[i];
      if exists i :: 0 <= i < |bs| && bs[i] >= 128 {
        var i :| 0 <= i < |bs| && bs[i] >= 128;
        if i > 0 {
          assert bs[1..][i - 1] >= 128;
        }
      }
    }
  }

  /** The big-endian UTF-16 code unit formed by two bytes. */
  function CodeUnit(hi: byte, lo: byte): nat {
    hi as int * 0x100 + lo as int
  }

  predicate IsHighSurrogate(u: int) { 0xD800 <= u < 0xDC00 }
  predicate IsLowSurrogate(u: int) { 0xDC00 <= u < 0xE000 }

  /** `bytes.decode("utf-16-be", errors="ignore")`: code units are read two
      bytes at a time; a high surrogate followed by a low one forms a
      supplementary character; any other surrogate unit and an odd trailing
      byte are dropped, and decoding resumes at the next unit. */
  function Utf16BeDecode(raw: seq<byte>): (s: string)
    ensures |s| <= |raw| / 2
    decreases |raw|
  {
    if |raw| < 2 then []
    else
      var u := CodeUnit(raw[0], raw[1]);
      if !IsHighSurrogate(u) && !IsLowSurrogate(u) then
        [u as char] + Utf16BeDecode(raw[2..])
      else if IsHighSurrogate(u) && |raw| >= 4 && IsLowSurrogate(CodeUnit(raw[2], raw[3])) then
        var cp := 0x1_0000 + (u - 0xD800) * 0x400 + (CodeUnit(raw[2], raw[3]) - 0xDC00);
        [cp as char] + Utf16BeDecode(raw[4..])
      else
        Utf16BeDecode(raw[2..])
  }

  /** Big-endian UTF-16 encoding of a string; the reference the decoder inverts. */
  function Utf16BeEncode(s: string): (raw: seq<byte>)
    ensures |raw| % 2 == 0
    ensures |s| <= |raw| / 2 <= 2 * |s|
  {
    if s == [] then []
    else
      var c := s[0] as int;
      if c < 0x1_0000 then
        [c / 0x100, c % 0x100] + Utf16BeEncode(s[1..])
      else
        var v := c - 0x1_0000;
        var hi := 0xD800 + v / 0x400;
        var lo := 0xDC00 + v % 0x400;
        [hi / 0x100, hi % 0x100, lo / 0x100, lo % 0x100] + Utf16BeEncode(s[1..])
  }

  lemma {:induction false} Utf16RoundTrip(s: string)
    ensures Utf16BeDecode(Utf16BeEncode(s)) == s
  {
    if s != [] {
      var c := s[0] as int;
      var raw := Utf16BeEncode(s);
      if c < 0x1_0000 {
        assert raw[2..] == Utf16BeEncode(s[1..]);
        assert CodeUnit(raw[0], raw[1]) == c;
        Utf16RoundTrip(s[1..]);
      } else {
        var v := c - 0x1_0000;
        var hi := 0xD800 + v / 0x400;
        var lo := 0xDC00 + v % 0x400;
        assert CodeUnit(raw[0], raw[1]) == hi;
        assert CodeUnit(raw[2], raw[3]) == lo;
        assert 0x1_0000 + (hi - 0xD800) * 0x400 + (lo - 0xDC00) == c;
        assert raw[4..] == Utf16BeEncode(s[1..]);
        Utf16RoundTrip(s[1..]);
      }
    }
  }

  /** A length-prefixed wide string as it appears on the wire: the code-unit
      count as a big-endian word, then the UTF-16BE bytes. */
  function EncodeWStr(s: string): (bs: seq<byte>)
    requires |s| < TWO_32 / 2
    ensures |bs| == 4 + |Utf16BeEncode(s)|
  {
    U32Bytes(|Utf16BeEncode(s)| / 2) + Utf16BeEncode(s)
  }

  // ---------------------------------------------------------------------------
  // The cursor

  /** Python's `BER(data, off, end)`: an offset and a region end over the
      buffer. The primitive reads consult only the buffer length; `end` is
      consulted by `Remain` and by `ReadFrameHeader`. */
  datatype Reader = Reader(data: seq<byte>, off: nat, end: nat) {

    function Tell(): (p: nat)
      ensures p == off
    {
      off
    }

    /** Moves the cursor anywhere, without a bounds check. */
    function Seek(o: nat): (r: Reader)
      ensures r.off == o && r.data == data && r.end == end
      ensures r.Remain() == end - o
    {
      this.(off := o)
    }

    function Remain(): int {
      end - off
    }

    /** `u32()`: the word whose big-endian encoding is the next 4 bytes. */
    function U32(): (res: Outcome<(nat, Reader)>)
      ensures res.Ok? <==> off + 4 <= |data|
      ensures res.Ok? ==> res.value.0 < TWO_32 && U32Bytes(res.value.0) == data[off..off + 4]
      ensures res.Ok? ==> res.value.1 == Seek(off + 4) && res.value.1.Remain() == Remain() - 4
      ensures res.Err? ==> res.error == ShortRead(off)
    {
      if off + 4 <= |data| then
        U32BytesOfWord(data, off);
        Ok((U32At(data, off), Seek(off + 4)))
      else
        Err(ShortRead(off))
    }

    /** `f32()`: the same 4 bytes, kept as an opaque float word. */
    function F32(): (res: Outcome<(Float32, Reader)>)
      ensures res.Ok? <==> off + 4 <= |data|
      ensures res.Ok? ==> res.value.0.bits < TWO_32 && U32Bytes(res.value.0.bits) == data[off..off + 4]
      ensures res.Ok? ==> res.value.1 == Seek(off + 4)
      ensures res.Err? ==> res.error == ShortRead(off)
    {
      var p :- U32();
      Ok((Float32(p.0), p.1))
    }

    /** `bytes(n)`: the slice may come back shorter than `n` at the end of the
        buffer, but the cursor moves by `n` regardless. */
    function Bytes(n: nat): (res: (seq<byte>, Reader))
      ensures res.1 == Seek(off + n)
      ensures |res.0| <= n
      ensures off + n <= |data| ==> res.0 == data[off..off + n]
      ensures off + n > |data| && n > 0 ==> |res.0| < n
    {
      (data[Min(off, |data|)..Min(off + n, |data|)], Seek(off + n))
    }

    /** `wstr_prefixed()`: a word count n, then 2n bytes decoded as UTF-16BE;
        4 + 2n bytes are consumed in total. Only the count read can fail. */
    function WStrPrefixed(): (res: Outcome<(string, Reader)>)
      ensures res.Ok? <==> off + 4 <= |data|
      ensures res.Ok? ==> res.value.1 == Seek(off + 4 + 2 * U32At(data, off))
      ensures res.Err? ==> res.error == ShortRead(off)
    {
      var p :- U32();
      var text := p.1.Bytes(2 * p.0);
      Ok((Utf16BeDecode(text.0), text.1))
    }
  }

  /** Where the count and the code units of an encoded string lie. */
  lemma WStrLayout(data: seq<byte>, off: nat, s: string)
    requires |s| < TWO_32 / 2
    requires off + |EncodeWStr(s)| <= |data|
    requires data[off..off + |EncodeWStr(s)|] == EncodeWStr(s)
    ensures data[off..off + 4] == U32Bytes(|Utf16BeEncode(s)| / 2)
    ensures data[off + 4..off + 4 + 2 * (|Utf16BeEncode(s)| / 2)] == Utf16BeEncode(s)
  {
    var all := EncodeWStr(s);
    assert data[off..off + 4] == all[..4];
    assert data[off + 4..off + |all|] == all[4..];
  }

  /** A wide string written at the cursor is read back unchanged, and the
      cursor ends just past it. */
  lemma WStrRoundTrip(r: Reader, s: string)
    requires |s| < TWO_32 / 2
    requires r.off + |EncodeWStr(s)| <= |r.data|
    requires r.data[r.off..r.off + |EncodeWStr(s)|] == EncodeWStr(s)
    ensures r.WStrPrefixed() == Ok((s, r.Seek(r.off + |EncodeWStr(s)|)))
  {
    var enc := Utf16BeEncode(s);
    var n := |enc| / 2;
    WStrLayout(r.data, r.off, s);
    U32RoundTrip(r.data, r.off, n);
    var p := r.U32();
    U32RoundTrip(r.data, r.off, p.value.0);
    assert p.value == (n, r.Seek(r.off + 4));
    var text := p.value.1.Bytes(2 * n);
    assert |enc| == 2 * n;
    assert text.0 == enc;
    assert text.1 == r.Seek(r.off + |EncodeWStr(s)|);
    assert r.WStrPrefixed() == Ok((Utf16BeDecode(text.0), text.1));
    Utf16RoundTrip(s);
  }

  // ---------------------------------------------------------------------------
  // Frame headers

  /** What `read_frame_header` returns: the ASCII-decoded tag and the payload
      range. */
  datatype FrameHeader = FrameHeader(tag: string, payloadStart: nat, payloadEnd: nat)

  /** `read_frame_header`: 4 tag bytes and a payload length. It succeeds iff 8
      bytes of the buffer are readable and the payload ends within the
      region; a header of size 0 is accepted. On the bounds failure the
      cursor has already consumed the 8 header bytes. */
  function ReadFrameHeader(r: Reader): (res: Outcome<(FrameHeader, Reader)>)
    ensures res.Ok? <==> r.off + 8 <= |r.data| && r.off + 8 + U32At(r.data, r.off + 4) <= r.end
    ensures res.Ok? ==>
              var h := res.value.0;
              && res.value.1 == r.Seek(r.off + 8)
              && h.payloadStart == r.off + 8
              && h.payloadEnd == h.payloadStart + U32At(r.data, r.off + 4) <= r.end
              && h.tag == AsciiDecode(r.data[r.off..r.off + 4])
    ensures res.Err? && r.off + 8 > |r.data| ==> res.error == ShortRead(r.off + 4)
    ensures res.Err? && r.off + 8 <= |r.data| ==>
              res.error == FrameOverrun(r.off + 8, U32At(r.data, r.off + 4))
  {
    var tagBytes := r.Bytes(4);
    var p :- tagBytes.1.U32();
    var (size, r2) := p;
    if r2.off + size > r.end then Err(FrameOverrun(r2.off, size))
    else Ok((FrameHeader(AsciiDecode(tagBytes.0), r2.off, r2.off + size), r2))
  }

  /** The cursor position at which a failed read raised. */
  function FaultCursor(e: DecodeError): nat {
    match e
    case ShortRead(c) => c
    case FrameOverrun(c, _) => c
  }
}
