/** The cursor's two strings as JSON bytes, and the whole cursor text of the Rust server.

    Strings are sequences of UTF-8 bytes: escaping works byte by byte and copies every byte from
    0x80 up. */
module Cursors {
  import opened Wrappers
  import opened Codec

  datatype Cursor = Cursor(ts: seq<Byte>, id: seq<Byte>)

  const QUOTE: Byte := 0x22
  const BACKSLASH: Byte := 0x5C

  function Ascii(text: string): seq<Byte>
    requires forall i :: 0 <= i < |text| ==> text[i] as int < 128
  {
    seq(|text|, i requires 0 <= i < |text| => text[i] as int)
  }

  // ---- Writing a string ----

  function HexDigit(d: int): Byte
    requires 0 <= d < 16
  {
    if d < 10 then 0x30 + d else 0x61 + d - 10
  }

  /** The letter after the backslash, for the control characters that have one. */
  function ShortEscape(b: Byte): Option<Byte> {
    match b
    case 0x08 => Some(0x62)
    case 0x09 => Some(0x74)
    case 0x0A => Some(0x6E)
    case 0x0C => Some(0x66)
    case 0x0D => Some(0x72)
    case 0x22 => Some(QUOTE)
    case 0x5C => Some(BACKSLASH)
    case _ => None
  }

  function EscapeByte(b: Byte): seq<Byte> {
    if ShortEscape(b).Some? then [BACKSLASH, ShortEscape(b).value]
    else if b < 0x20 then [BACKSLASH, 0x75, 0x30, 0x30, HexDigit(b / 16), HexDigit(b % 16)]
    else [b]
  }

  /** The string's bytes, escaped, with the closing quote. */
  function WriteString(s: seq<Byte>): seq<Byte> {
    if s == [] then [QUOTE] else EscapeByte(s[0]) + WriteString(s[1..])
  }

  // ---- Reading a string ----

  function HexValue(b: Byte): (d: Option<int>)
    ensures d.Some? ==> 0 <= d.value < 16
  {
    if 0x30 <= b <= 0x39 then Some(b - 0x30)
    else if 0x61 <= b <= 0x66 then Some(b - 0x61 + 10)
    else if 0x41 <= b <= 0x46 then Some(b - 0x41 + 10)
    else None
  }

  /** The letter after the backslash, read back. */
  function ReadShort(b: Byte): Option<Byte> {
    match b
    case 0x22 => Some(QUOTE)
    case 0x5C => Some(BACKSLASH)
    case 0x2F => Some(0x2F)
    case 0x62 => Some(0x08)
    case 0x66 => Some(0x0C)
    case 0x6E => Some(0x0A)
    case 0x72 => Some(0x0D)
    case 0x74 => Some(0x09)
    case _ => None
  }

  /** Four hexadecimal digits. */
  function ReadHex(t: seq<Byte>): (code: Option<int>)
    ensures code.Some? ==> |t| >= 4 && 0 <= code.value < 0x1_0000
  {
    if |t| < 4 then None
    else
      var a :- HexValue(t[0]);
      var b :- HexValue(t[1]);
      var c :- HexValue(t[2]);
      var d :- HexValue(t[3]);
      Some(((a * 16 + b) * 16 + c) * 16 + d)
  }

  /** UTF-8, section 3 of RFC 3629. */
  function Utf8(code: int): seq<Byte>
    requires 0 <= code < 0x11_0000
  {
    if code < 0x80 then [code]
    else if code < 0x800 then [0xC0 + code / 64, 0x80 + code % 64]
    else if code < 0x1_0000 then [0xE0 + code / 4096, 0x80 + code / 64 % 64, 0x80 + code % 64]
    else [0xF0 + code / 262144, 0x80 + code / 4096 % 64, 0x80 + code / 64 % 64, 0x80 + code % 64]
  }

  /** After a backslash and u: one code unit, or a surrogate pair. */
  function ReadUnicode(t: seq<Byte>): (r: Option<(seq<Byte>, seq<Byte>)>)
    ensures r.Some? ==> |r.value.1| < |t|
  {
    var high :- ReadHex(t);
    if 0xDC00 <= high < 0xE000 then None
    else if 0xD800 <= high < 0xDC00 then
      if |t| < 6 || t[4] != BACKSLASH || t[5] != 0x75 then None
      else
        var low :- ReadHex(t[6..]);
        if low < 0xDC00 || 0xE000 <= low then None
        else Some((Utf8(0x1_0000 + (high - 0xD800) * 1024 + (low - 0xDC00)), t[10..]))
    else Some((Utf8(high), t[4..]))
  }

  /** The string up to its closing quote, and what follows. */
  function ReadString(t: seq<Byte>): (r: Option<(seq<Byte>, seq<Byte>)>)
    ensures r.Some? ==> |r.value.1| < |t|
    decreases |t|
  {
    if t == [] || t[0] < 0x20 then None
    else if t[0] == QUOTE then Some(([], t[1..]))
    else if t[0] != BACKSLASH then
      var (s, rest) :- ReadString(t[1..]);
      Some(([t[0]] + s, rest))
    else if |t| < 2 then None
    else if t[1] == 0x75 then
      var (bytes, after) :- ReadUnicode(t[2..]);
      var (s, rest) :- ReadString(after);
      Some((bytes + s, rest))
    else
      var b :- ReadShort(t[1]);
      var (s, rest) :- ReadString(t[2..]);
      Some(([b] + s, rest))
  }

  /** What reading yields once the next bytes are understood. */
  function Prepend(bytes: seq<Byte>, r: Option<(seq<Byte>, seq<Byte>)>): Option<(seq<Byte>, seq<Byte>)> {
    if r.Some? then Some((bytes + r.value.0, r.value.1)) else None
  }

  lemma ReadsPlain(b: Byte, t: seq<Byte>)
    requires b >= 0x20 && b != QUOTE && b != BACKSLASH
    ensures ReadString([b] + t) == Prepend([b], ReadString(t))
  {
    assert ([b] + t)[1..] == t;
  }

  lemma ReadsShort(e: Byte, b: Byte, t: seq<Byte>)
    requires ReadShort(e) == Some(b)
    ensures ReadString([BACKSLASH, e] + t) == Prepend([b], ReadString(t))
  {
    assert e != 0x75;
    hide ReadShort, ReadUnicode;
    assert ([BACKSLASH, e] + t)[2..] == t;
  }

  lemma ReadsUnicode(u: seq<Byte>, bytes: seq<Byte>, t: seq<Byte>)
    requires ReadUnicode(u) == Some((bytes, t))
    ensures ReadString([BACKSLASH, 0x75] + u) == Prepend(bytes, ReadString(t))
  {
    hide ReadUnicode;
    assert ([BACKSLASH, 0x75] + u)[2..] == u;
  }

  lemma ReadsEscapedByte(b: Byte, t: seq<Byte>)
    ensures ReadString(EscapeByte(b) + t) == Prepend([b], ReadString(t))
  {
    hide ReadString, ReadUnicode;
    if ShortEscape(b).Some? {
      ReadsShort(ShortEscape(b).value, b, t);
    } else if b < 0x20 {
      var u := [0x30, 0x30, HexDigit(b / 16), HexDigit(b % 16)] + t;
      ReadsControl(b, t);
      ReadsUnicode(u, [b], t);
      assert EscapeByte(b) + t == [BACKSLASH, 0x75] + u;
    } else {
      ReadsPlain(b, t);
    }
  }

  lemma ReadsControl(b: Byte, t: seq<Byte>)
    requires b < 0x20
    ensures ReadUnicode([0x30, 0x30, HexDigit(b / 16), HexDigit(b % 16)] + t) == Some(([b], t))
  {
    var text := [0x30, 0x30, HexDigit(b / 16), HexDigit(b % 16)] + t;
    assert text[4..] == t;
    assert HexValue(HexDigit(b / 16)) == Some(b / 16) && HexValue(HexDigit(b % 16)) == Some(b % 16);
  }

  /** Every string is read back from its escaped form, whatever follows it. */
  lemma {:induction false} ReadInvertsWrite(s: seq<Byte>, t: seq<Byte>)
    ensures ReadString(WriteString(s) + t) == Some((s, t))
  {
    if s == [] {
      assert (WriteString(s) + t)[1..] == t;
    } else {
      hide ReadString, EscapeByte;
      ReadInvertsWrite(s[1..], t);
      ReadsEscapedByte(s[0], WriteString(s[1..]) + t);
      assert WriteString(s) + t == EscapeByte(s[0]) + (WriteString(s[1..]) + t);
      assert [s[0]] + s[1..] == s;
    }
  }

  // ---- The cursor ----

  /** What the encoder writes before, between and after the two strings. */
  datatype Layout = Layout(beforeTs: seq<Byte>, beforeId: seq<Byte>, atEnd: seq<Byte>)

  /** serde_json and encoding/json write no spaces. */
  function Compact(): Layout {
    Layout(Ascii("{\"ts\":\""), Ascii(",\"id\":\""), Ascii("}"))
  }

  function Assemble(l: Layout, ts: seq<Byte>, id: seq<Byte>): seq<Byte> {
    l.beforeTs + ts + (l.beforeId + id + l.atEnd)
  }

  /** Drops a prefix, or fails. */
  function Expect(prefix: seq<Byte>, t: seq<Byte>): Option<seq<Byte>> {
    if prefix <= t then Some(t[|prefix|..]) else None
  }

  /** Reads the two strings of a text of this layout. */
  function TakeApart<S>(l: Layout, read: seq<Byte> -> Option<(S, seq<Byte>)>, t: seq<Byte>): Option<(S, S)> {
    var ts :- Expect(l.beforeTs, t);
    var (a, afterTs) :- read(ts);
    var id :- Expect(l.beforeId, afterTs);
    var (b, afterId) :- read(id);
    if afterId == l.atEnd then Some((a, b)) else None
  }

  lemma ExpectSkips(prefix: seq<Byte>, t: seq<Byte>)
    ensures Expect(prefix, prefix + t) == Some(t)
  {
    assert (prefix + t)[|prefix|..] == t;
  }

  /** If each string is read back whatever follows it, so are the two together. */
  lemma TakeApartInvertsAssemble<S>(l: Layout, read: seq<Byte> -> Option<(S, seq<Byte>)>, ts: seq<Byte>, id: seq<Byte>, a: S, b: S)
    requires forall tail :: read(ts + tail) == Some((a, tail))
    requires forall tail :: read(id + tail) == Some((b, tail))
    ensures TakeApart(l, read, Assemble(l, ts, id)) == Some((a, b))
  {
    hide Expect;
    var tail := l.beforeId + id + l.atEnd;
    assert Assemble(l, ts, id) == l.beforeTs + (ts + tail);
    ExpectSkips(l.beforeTs, ts + tail);
    assert read(ts + tail) == Some((a, tail));
    assert tail == l.beforeId + (id + l.atEnd);
    ExpectSkips(l.beforeId, id + l.atEnd);
    assert read(id + l.atEnd) == Some((b, l.atEnd));
  }

  function ToJson(c: Cursor): seq<Byte> {
    Assemble(Compact(), WriteString(c.ts), WriteString(c.id))
  }

  function FromJson(t: seq<Byte>): Option<Cursor> {
    var (ts, id) :- TakeApart(Compact(), ReadString, t);
    Some(Cursor(ts, id))
  }

  function EncodeCursor(c: Cursor): string {
    Encode(ToJson(c))
  }

  /** Printable ASCII but for quotes and backslashes, as timestamps and ids are. */
  predicate Plain(s: seq<Byte>) {
    forall i | 0 <= i < |s| :: 0x20 <= s[i] < 0x7F && s[i] != QUOTE && s[i] != BACKSLASH
  }

  lemma {:induction false} PlainIsWrittenAsItIs(s: seq<Byte>)
    requires Plain(s)
    ensures WriteString(s) == s + [QUOTE]
  {
    if s != [] {
      PlainIsWrittenAsItIs(s[1..]);
      assert EscapeByte(s[0]) == [s[0]];
      assert s == [s[0]] + s[1..];
    }
  }

  lemma QuoteFirst()
    ensures Ascii("\",\"id\":\"") == [QUOTE] + Ascii(",\"id\":\"") && Ascii("\"}") == [QUOTE] + Ascii("}")
  {
  }

  lemma Regroup(first: seq<Byte>, ts: seq<Byte>, quote: seq<Byte>, between: seq<Byte>, id: seq<Byte>, end: seq<Byte>)
    ensures first + (ts + quote) + (between + (id + quote) + end) == first + ts + (quote + between) + id + (quote + end)
  {
    assert ts + quote + (between + (id + quote) + end) == ts + (quote + between) + id + (quote + end);
  }

  /** Between the base64url, a cursor of plain strings is this object. */
  lemma PlainCursorText(c: Cursor)
    requires Plain(c.ts) && Plain(c.id)
    ensures Decode(EncodeCursor(c), true)
         == Some(Ascii("{\"ts\":\"") + c.ts + Ascii("\",\"id\":\"") + c.id + Ascii("\"}"))
  {
    hide Encode, Decode, WriteString, Ascii, Plain;
    DecodeInvertsEncode(ToJson(c), true);
    PlainIsWrittenAsItIs(c.ts);
    PlainIsWrittenAsItIs(c.id);
    QuoteFirst();
    Regroup(Ascii("{\"ts\":\""), c.ts, [QUOTE], Ascii(",\"id\":\""), c.id, Ascii("}"));
  }

  datatype Error = BadRequest

  function DecodeCursor(raw: string): Result<Cursor, Error> {
    var bytes := Decode(raw, true);
    if bytes.None? then Err(BadRequest)
    else
      var c := FromJson(bytes.value);
      if c.None? then Err(BadRequest) else Ok(c.value)
  }

  lemma FromInvertsToJson(c: Cursor)
    ensures FromJson(ToJson(c)) == Some(c)
  {
    hide ReadString, WriteString, Compact, Assemble, TakeApart;
    forall tail
      ensures ReadString(WriteString(c.ts) + tail) == Some((c.ts, tail))
      ensures ReadString(WriteString(c.id) + tail) == Some((c.id, tail))
    {
      ReadInvertsWrite(c.ts, tail);
      ReadInvertsWrite(c.id, tail);
    }
    TakeApartInvertsAssemble(Compact(), ReadString, WriteString(c.ts), WriteString(c.id), c.ts, c.id);
  }

  /** Decoding an encoded cursor gives it back, whatever its two strings, and no two cursors share a
      text. A text that is not the encoding of some bytes is a bad request. */
  lemma CursorRoundTrip(c: Cursor, d: Cursor, raw: string)
    ensures DecodeCursor(EncodeCursor(c)) == Ok(c)
    ensures EncodeCursor(c) == EncodeCursor(d) <==> c == d
    ensures DecodeCursor(raw).Ok? ==> exists bytes :: raw == Encode(bytes) && FromJson(bytes) == Some(DecodeCursor(raw).value)
  {
    hide ToJson, FromJson, Encode, Decode;
    FromInvertsToJson(c);
    FromInvertsToJson(d);
    DecodeInvertsEncode(ToJson(c), true);
    DecodeInvertsEncode(ToJson(d), true);
    if DecodeCursor(raw).Ok? {
      StrictDecodeIff(raw, Decode(raw, true).value);
    }
  }

  // ---- Short escapes ----

  /** A short escape is read back, and none is mistaken for an escape by code unit; a printable
      character without one is neither the quote nor the backslash. */
  lemma ShortEscapes(b: Byte)
    ensures ShortEscape(b).Some? ==> ShortEscape(b).value != 0x75 && ReadShort(ShortEscape(b).value) == Some(b)
    ensures ShortEscape(b).None? ==> b != QUOTE && b != BACKSLASH
  {
  }

  // ---- Escapes by code unit ----

  /** A code unit as a backslash, u, and four hexadecimal digits. */
  function UnitEscape(u: int): seq<Byte>
    requires 0 <= u < 0x1_0000
  {
    [BACKSLASH, 0x75] + FourHex(u)
  }

  function FourHex(u: int): seq<Byte>
    requires 0 <= u < 0x1_0000
  {
    [HexDigit(u / 4096), HexDigit(u / 256 % 16), HexDigit(u / 16 % 16), HexDigit(u % 16)]
  }

  lemma HexDigitIsRead(d: int)
    requires 0 <= d < 16
    ensures HexValue(HexDigit(d)) == Some(d)
  {
  }

  lemma DigitsOf(u: int)
    requires 0 <= u < 0x1_0000
    ensures 0 <= u / 4096 < 16
    ensures ((u / 4096 * 16 + u / 256 % 16) * 16 + u / 16 % 16) * 16 + u % 16 == u
  {
    assert u / 16 * 16 + u % 16 == u;
    assert u / 256 * 16 + u / 16 % 16 == u / 16;
    assert u / 4096 * 16 + u / 256 % 16 == u / 256;
  }

  lemma FourHexIsRead(u: int, t: seq<Byte>)
    requires 0 <= u < 0x1_0000
    ensures ReadHex(FourHex(u) + t) == Some(u) && (FourHex(u) + t)[4..] == t
  {
    HexDigitIsRead(u / 4096);
    HexDigitIsRead(u / 256 % 16);
    HexDigitIsRead(u / 16 % 16);
    HexDigitIsRead(u % 16);
    DigitsOf(u);
    hide HexDigit, HexValue;
    assert (FourHex(u) + t)[4..] == t;
  }

  predicate IsHigh(u: int) {
    0xD800 <= u < 0xDC00
  }

  predicate IsLow(u: int) {
    0xDC00 <= u < 0xE000
  }
}
