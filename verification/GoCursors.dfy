/** Go's cursor: json.Marshal escapes what HTML could read as markup and the two line separators of
    JavaScript, and writes U+FFFD for every byte that is not UTF-8. */
module GoCursors {
  import opened Wrappers
  import opened Codec
  import opened Cursors

  type Scalar = x: int | 0 <= x < 0x11_0000 && !(0xD800 <= x < 0xE000)

  /** What decoding takes off a string, which is any bytes: a character, or a byte that begins none. */
  datatype GoChar = Rune(code: Scalar) | Bad(b: Byte)

  type GoString = seq<GoChar>

  const REPLACEMENT: Scalar := 0xFFFD

  function BytesOf(s: GoString): seq<Byte> {
    if s == [] then []
    else (match s[0] case Rune(c) => Utf8(c) case Bad(b) => [b]) + BytesOf(s[1..])
  }

  // ---- Decoding UTF-8 ----

  predicate IsScalar(x: int) {
    0 <= x < 0x11_0000 && !(0xD800 <= x < 0xE000)
  }

  predicate IsTail(b: Byte) {
    0x80 <= b < 0xC0
  }

  /** What a byte carries beside the mark of its kind. */
  function Payload(b: int, mark: int): int {
    b - mark
  }

  /** utf8.DecodeRuneInString: the character that the bytes begin with, in its shortest form. */
  function FirstRune(t: seq<Byte>): (r: Option<Scalar>)
    ensures r.Some? ==> 1 <= |Utf8(r.value)| <= |t|
  {
    if t == [] then None
    else if t[0] < 0x80 then Some(t[0])
    else if 0xC0 <= t[0] < 0xE0 then
      if |t| < 2 || !IsTail(t[1]) then None
      else
        var x := Payload(t[0], 0xC0) * 64 + Payload(t[1], 0x80);
        if x < 0x80 then None else Some(x)
    else if 0xE0 <= t[0] < 0xF0 then
      if |t| < 3 || !IsTail(t[1]) || !IsTail(t[2]) then None
      else
        var x := (Payload(t[0], 0xE0) * 64 + Payload(t[1], 0x80)) * 64 + Payload(t[2], 0x80);
        if x < 0x800 || !IsScalar(x) then None else Some(x)
    else if 0xF0 <= t[0] < 0xF8 then
      if |t| < 4 || !IsTail(t[1]) || !IsTail(t[2]) || !IsTail(t[3]) then None
      else
        var x := ((Payload(t[0], 0xF0) * 64 + Payload(t[1], 0x80)) * 64 + Payload(t[2], 0x80)) * 64 + Payload(t[3], 0x80);
        if x < 0x1_0000 || !IsScalar(x) then None else Some(x)
    else None
  }

  lemma SplitTwice(q: int, a: int, b: int)
    requires 0 <= a < 64 && 0 <= b < 64
    ensures ((q * 64 + a) * 64 + b) / 64 == q * 64 + a && ((q * 64 + a) * 64 + b) % 64 == b
    ensures ((q * 64 + a) * 64 + b) / 64 % 64 == a && ((q * 64 + a) * 64 + b) / 4096 == q
  {
    Split64(q * 64 + a, b);
    Split64(q, a);
    Shrink(((q * 64 + a) * 64 + b), 64);
  }

  lemma Shrink(x: int, k: int)
    requires k == 64 || k == 4096
    ensures x / k / 64 == x / (k * 64)
  {
    if k == 64 {
      assert x / 64 / 64 == x / 4096;
    } else {
      assert x / 4096 / 64 == x / 262144;
    }
  }

  lemma SplitThrice(q: int, a: int, b: int, c: int)
    requires 0 <= a < 64 && 0 <= b < 64 && 0 <= c < 64
    ensures var x := ((q * 64 + a) * 64 + b) * 64 + c;
            x / 262144 == q && x / 4096 % 64 == a && x / 64 % 64 == b && x % 64 == c
  {
    var x := ((q * 64 + a) * 64 + b) * 64 + c;
    Split64((q * 64 + a) * 64 + b, c);
    SplitTwice(q, a, b);
    Shrink(x, 64);
    Shrink(x, 4096);
  }

  /** The digits of a character, put together again. */
  lemma Whole(x: int)
    ensures x / 64 * 64 + x % 64 == x
    ensures (x / 4096 * 64 + x / 64 % 64) * 64 + x % 64 == x
    ensures ((x / 262144 * 64 + x / 4096 % 64) * 64 + x / 64 % 64) * 64 + x % 64 == x
  {
    Shrink(x, 64);
    Shrink(x, 4096);
    assert x / 64 / 64 * 64 + x / 64 % 64 == x / 64;
    assert x / 4096 / 64 * 64 + x / 4096 % 64 == x / 4096;
  }

  lemma FirstRuneOfUtf8(r: Scalar, t: seq<Byte>)
    requires Utf8(r) <= t
    ensures FirstRune(t) == Some(r)
  {
    Whole(r);
    var u := Utf8(r);
    assert forall i :: 0 <= i < |u| ==> t[i] == u[i];
    hide FirstRune;
    if r < 0x80 {
      ReadsOne(r, t);
    } else if r < 0x800 {
      ReadsTwo(r, t);
    } else if r < 0x1_0000 {
      ReadsThree(r, t);
    } else {
      ReadsFour(r, t);
    }
  }

  lemma ReadsOne(r: Scalar, t: seq<Byte>)
    requires r < 0x80 && |t| >= 1 && t[0] == r
    ensures FirstRune(t) == Some(r)
  {
  }

  lemma ReadsTwo(r: Scalar, t: seq<Byte>)
    requires 0x80 <= r < 0x800 && |t| >= 2 && t[0] == 0xC0 + r / 64 && t[1] == 0x80 + r % 64
    ensures FirstRune(t) == Some(r)
  {
    Whole(r);
  }

  lemma ReadsThree(r: Scalar, t: seq<Byte>)
    requires 0x800 <= r < 0x1_0000 && |t| >= 3
    requires t[0] == 0xE0 + r / 4096 && t[1] == 0x80 + r / 64 % 64 && t[2] == 0x80 + r % 64
    ensures FirstRune(t) == Some(r)
  {
    Whole(r);
  }

  lemma ReadsFour(r: Scalar, t: seq<Byte>)
    requires 0x1_0000 <= r && |t| >= 4
    requires t[0] == 0xF0 + r / 262144 && t[1] == 0x80 + r / 4096 % 64 && t[2] == 0x80 + r / 64 % 64 && t[3] == 0x80 + r % 64
    ensures FirstRune(t) == Some(r)
  {
    Whole(r);
  }

  lemma Utf8OfFirstRune(t: seq<Byte>)
    requires FirstRune(t).Some?
    ensures Utf8(FirstRune(t).value) <= t
  {
    if 0xC0 <= t[0] < 0xE0 {
      var a, b := t[0] - 0xC0, t[1] - 0x80;
      WritesTwo(a, b);
      assert [0xC0 + a, 0x80 + b] == t[..2];
    } else if 0xE0 <= t[0] < 0xF0 {
      var a, b, c := t[0] - 0xE0, t[1] - 0x80, t[2] - 0x80;
      WritesThree(a, b, c);
      hide Utf8;
      assert [0xE0 + a, 0x80 + b, 0x80 + c] == t[..3];
    } else if t[0] >= 0xF0 {
      var a, b, c, d := t[0] - 0xF0, t[1] - 0x80, t[2] - 0x80, t[3] - 0x80;
      WritesFour(a, b, c, d);
      hide Utf8;
      assert [0xF0 + a, 0x80 + b, 0x80 + c, 0x80 + d] == t[..4];
    }
  }

  lemma WritesTwo(a: int, b: int)
    requires 0 <= b < 64 && 0x80 <= a * 64 + b < 0x800
    ensures Utf8(a * 64 + b) == [0xC0 + a, 0x80 + b]
  {
    Split64(a, b);
  }

  lemma WritesThree(a: int, b: int, c: int)
    requires 0 <= b < 64 && 0 <= c < 64
    requires 0x800 <= (a * 64 + b) * 64 + c < 0x1_0000 && IsScalar((a * 64 + b) * 64 + c)
    ensures Utf8((a * 64 + b) * 64 + c) == [0xE0 + a, 0x80 + b, 0x80 + c]
  {
    SplitTwice(a, b, c);
  }

  lemma WritesFour(a: int, b: int, c: int, d: int)
    requires 0 <= b < 64 && 0 <= c < 64 && 0 <= d < 64
    requires 0x1_0000 <= ((a * 64 + b) * 64 + c) * 64 + d < 0x11_0000
    ensures Utf8(((a * 64 + b) * 64 + c) * 64 + d) == [0xF0 + a, 0x80 + b, 0x80 + c, 0x80 + d]
  {
    SplitThrice(a, b, c, d);
  }

  /** Bytes begin with at most one character: no encoding is a prefix of another. */
  lemma FirstRuneIff(t: seq<Byte>, r: Scalar)
    ensures FirstRune(t) == Some(r) <==> Utf8(r) <= t
  {
    if FirstRune(t).Some? {
      Utf8OfFirstRune(t);
    }
    if Utf8(r) <= t {
      FirstRuneOfUtf8(r, t);
    }
  }

  /** `for i, r := range s`: characters, and one bad byte at a time where none begins. */
  function Decompose(t: seq<Byte>): GoString
    decreases |t|
  {
    if t == [] then []
    else
      var r := FirstRune(t);
      if r.None? then [Bad(t[0])] + Decompose(t[1..])
      else [Rune(r.value)] + Decompose(t[|Utf8(r.value)|..])
  }

  lemma {:induction false} BytesOfDecompose(t: seq<Byte>)
    ensures BytesOf(Decompose(t)) == t
    decreases |t|
  {
    if t != [] {
      var r := FirstRune(t);
      if r.Some? {
        Utf8OfFirstRune(t);
        hide FirstRune, Utf8;
        BytesOfDecompose(t[|Utf8(r.value)|..]);
      } else {
        hide FirstRune, Utf8;
        BytesOfDecompose(t[1..]);
        assert [t[0]] + t[1..] == t;
      }
    }
  }

  /** The bytes are the UTF-8 encoding of some characters (section 3 of RFC 3629). */
  ghost predicate IsUtf8(t: seq<Byte>) {
    exists scalars: seq<Scalar> :: Utf8All(scalars) == t
  }

  function Utf8All(scalars: seq<Scalar>): seq<Byte> {
    if scalars == [] then [] else Utf8(scalars[0]) + Utf8All(scalars[1..])
  }

  predicate AllRunes(s: GoString) {
    forall i :: 0 <= i < |s| ==> s[i].Rune?
  }

  lemma {:induction false} EncodedHasNoBadByte(scalars: seq<Scalar>)
    ensures AllRunes(Decompose(Utf8All(scalars)))
  {
    if scalars != [] {
      var t, rest := Utf8All(scalars), Utf8All(scalars[1..]);
      EncodedHasNoBadByte(scalars[1..]);
      FirstRuneOfUtf8(scalars[0], t);
      hide FirstRune;
      assert |Utf8(scalars[0])| >= 1;
      hide Utf8;
      assert t[|Utf8(scalars[0])|..] == rest;
    }
  }

  lemma {:induction false} RunesAreEncoded(s: GoString) returns (scalars: seq<Scalar>)
    requires AllRunes(s)
    ensures Utf8All(scalars) == BytesOf(s)
  {
    hide Utf8;
    if s == [] {
      scalars := [];
    } else {
      var rest := RunesAreEncoded(s[1..]);
      scalars := [s[0].code] + rest;
      assert scalars[1..] == rest;
    }
  }

  /** Decoding finds no bad byte exactly in what is UTF-8. */
  lemma NoBadByteIff(t: seq<Byte>)
    ensures AllRunes(Decompose(t)) <==> IsUtf8(t)
  {
    hide Decompose, Utf8All, BytesOf;
    BytesOfDecompose(t);
    if AllRunes(Decompose(t)) {
      var scalars := RunesAreEncoded(Decompose(t));
      assert Utf8All(scalars) == t;
    }
    if IsUtf8(t) {
      var scalars: seq<Scalar> :| Utf8All(scalars) == t;
      EncodedHasNoBadByte(scalars);
    }
  }

  // ---- json.Marshal ----

  function EscapeGo(c: GoChar): seq<Byte> {
    match c
    case Bad(_) => UnitEscape(REPLACEMENT)
    case Rune(r) =>
      if r < 0x80 then
        if ShortEscape(r).Some? then [BACKSLASH, ShortEscape(r).value]
        else if r < 0x20 || r == 0x3C || r == 0x3E || r == 0x26 then UnitEscape(r)
        else [r]
      else if r == 0x2028 || r == 0x2029 then UnitEscape(r)
      else Utf8(r)
  }

  /** No `<`, `>` or `&`. */
  predicate NoMarkup(t: seq<Byte>) {
    forall i | 0 <= i < |t| :: t[i] != 0x3C && t[i] != 0x3E && t[i] != 0x26
  }

  function WriteGo(s: GoString): seq<Byte> {
    if s == [] then [QUOTE] else EscapeGo(s[0]) + WriteGo(s[1..])
  }

  lemma EscapeHasNoMarkup(c: GoChar)
    ensures NoMarkup(EscapeGo(c))
  {
    if c.Rune? && c.code >= 0x80 {
      HighBytes(c.code);
      hide Utf8;
    }
  }

  /** What json.Marshal writes can stand in HTML. */
  lemma {:induction false} WritesNoMarkup(s: GoString)
    ensures NoMarkup(WriteGo(s))
  {
    hide EscapeGo;
    if s != [] {
      EscapeHasNoMarkup(s[0]);
      WritesNoMarkup(s[1..]);
    }
  }

  // ---- What is read back ----

  function Replaced(c: GoChar): GoChar {
    if c.Bad? then Rune(REPLACEMENT) else c
  }

  function AllReplaced(s: GoString): GoString {
    seq(|s|, i requires 0 <= i < |s| => Replaced(s[i]))
  }

  /** The bytes, with U+FFFD for each bad one. */
  function Repaired(t: seq<Byte>): seq<Byte> {
    BytesOf(AllReplaced(Decompose(t)))
  }

  lemma {:induction false} ReadsPlainBytes(bytes: seq<Byte>, t: seq<Byte>)
    requires forall i :: 0 <= i < |bytes| ==> bytes[i] >= 0x80
    ensures ReadString(bytes + t) == Prepend(bytes, ReadString(t))
  {
    hide ReadString;
    if bytes == [] {
      assert bytes + t == t;
      assert ReadString(t).Some? ==> [] + ReadString(t).value.0 == ReadString(t).value.0;
    } else {
      ReadsPlainBytes(bytes[1..], t);
      ReadsPlain(bytes[0], bytes[1..] + t);
      assert bytes + t == [bytes[0]] + (bytes[1..] + t);
      assert [bytes[0]] + bytes[1..] == bytes;
      if ReadString(t).Some? {
        var tail := ReadString(t).value.0;
        assert [bytes[0]] + (bytes[1..] + tail) == bytes + tail;
      }
    }
  }

  lemma ReadsUnitEscape(u: int, t: seq<Byte>)
    requires 0 <= u < 0x1_0000 && !IsHigh(u) && !IsLow(u)
    ensures ReadString(UnitEscape(u) + t) == Prepend(Utf8(u), ReadString(t))
  {
    var text := FourHex(u) + t;
    FourHexIsRead(u, t);
    assert UnitEscape(u) + t == [BACKSLASH, 0x75] + text;
    assert ReadUnicode(text) == Some((Utf8(u), t)) by {
      hide FourHex, ReadHex, Utf8;
    }
    hide FourHex, ReadUnicode, ReadString, Utf8;
    ReadsUnicode(text, Utf8(u), t);
  }

  lemma HighBytes(r: Scalar)
    requires r >= 0x80
    ensures forall i :: 0 <= i < |Utf8(r)| ==> Utf8(r)[i] >= 0x80
  {
  }

  lemma ReadsGoChar(c: GoChar, t: seq<Byte>)
    ensures ReadString(EscapeGo(c) + t) == Prepend(BytesOf([Replaced(c)]), ReadString(t))
  {
    OneChar(Replaced(c));
    hide ReadString, UnitEscape, BytesOf, FourHex, ShortEscape, ReadShort;
    match c
    case Bad(_) => ReadsUnitEscape(REPLACEMENT, t);
    case Rune(r) =>
      if r < 0x80 {
        ShortEscapes(r);
        if ShortEscape(r).Some? {
          ReadsShort(ShortEscape(r).value, r, t);
        } else if r < 0x20 || r == 0x3C || r == 0x3E || r == 0x26 {
          ReadsUnitEscape(r, t);
        } else {
          ReadsPlain(r, t);
        }
      } else if r == 0x2028 || r == 0x2029 {
        ReadsUnitEscape(r, t);
      } else {
        HighBytes(r);
        hide Utf8;
        ReadsPlainBytes(Utf8(r), t);
      }
  }

  lemma OneChar(c: GoChar)
    ensures BytesOf([c]) == match c case Rune(r) => Utf8(r) case Bad(b) => [b]
  {
    hide Utf8;
    assert [c][1..] == [];
  }

  /** Every string is read back, whatever follows it, with U+FFFD for its bad bytes. */
  lemma {:induction false} ReadsReplaced(s: GoString, t: seq<Byte>)
    ensures ReadString(WriteGo(s) + t) == Some((BytesOf(AllReplaced(s)), t))
  {
    if s == [] {
      assert (WriteGo(s) + t)[1..] == t;
    } else {
      hide ReadString, EscapeGo, Utf8;
      ReadsReplaced(s[1..], t);
      ReadsGoChar(s[0], WriteGo(s[1..]) + t);
      assert WriteGo(s) + t == EscapeGo(s[0]) + (WriteGo(s[1..]) + t);
      assert AllReplaced(s)[1..] == AllReplaced(s[1..]) && AllReplaced(s)[0] == Replaced(s[0]);
      OneChar(Replaced(s[0]));
    }
  }

  /** A replacement is three bytes for one. */
  lemma {:induction false} ReplacedIsSameIff(s: GoString)
    ensures |BytesOf(AllReplaced(s))| >= |BytesOf(s)|
    ensures BytesOf(AllReplaced(s)) == BytesOf(s) <==> AllRunes(s)
    ensures !AllRunes(s) ==> |BytesOf(AllReplaced(s))| > |BytesOf(s)|
  {
    if s != [] {
      ReplacedIsSameIff(s[1..]);
      assert AllReplaced(s)[1..] == AllReplaced(s[1..]) && AllReplaced(s)[0] == Replaced(s[0]);
      assert |Utf8(REPLACEMENT)| == 3;
      hide Utf8;
      assert AllRunes(s) <==> s[0].Rune? && AllRunes(s[1..]) by {
        assert s == [s[0]] + s[1..];
      }
    }
  }

  // ---- The cursor ----

  /** A Go string, written: any bytes. */
  function WriteBytes(t: seq<Byte>): seq<Byte> {
    WriteGo(Decompose(t))
  }

  /** Every string of bytes is read back, whatever follows it, with U+FFFD for its bad bytes; they are
      the same bytes exactly when they are UTF-8. */
  lemma ReadsRepaired(t: seq<Byte>, tail: seq<Byte>)
    ensures ReadString(WriteBytes(t) + tail) == Some((Repaired(t), tail))
    ensures Repaired(t) == t <==> IsUtf8(t)
  {
    hide ReadString, WriteGo, Decompose, BytesOf, AllReplaced, AllRunes, IsUtf8;
    ReadsReplaced(Decompose(t), tail);
    ReplacedIsSameIff(Decompose(t));
    BytesOfDecompose(t);
    NoBadByteIff(t);
  }

  function EncodeGo(c: Cursor): string {
    Encode(Assemble(Compact(), WriteBytes(c.ts), WriteBytes(c.id)))
  }

  function DecodeGo(raw: string): Option<Cursor> {
    var bytes :- Decode(raw, false);
    FromJson(bytes)
  }

  /** Decoding an encoded cursor gives it back exactly when both strings are UTF-8, as every timestamp
      and id is; otherwise it gives them back with U+FFFD for each bad byte. */
  lemma GoCursorRoundTripIff(c: Cursor)
    ensures DecodeGo(EncodeGo(c)) == Some(Cursor(Repaired(c.ts), Repaired(c.id)))
    ensures DecodeGo(EncodeGo(c)) == Some(c) <==> IsUtf8(c.ts) && IsUtf8(c.id)
  {
    hide ReadString, WriteBytes, Compact, Assemble, TakeApart, Repaired, IsUtf8, Encode, Decode;
    var ts, id := WriteBytes(c.ts), WriteBytes(c.id);
    DecodeInvertsEncode(Assemble(Compact(), ts, id), false);
    ReadsRepaired(c.ts, []);
    ReadsRepaired(c.id, []);
    forall tail
      ensures ReadString(ts + tail) == Some((Repaired(c.ts), tail))
      ensures ReadString(id + tail) == Some((Repaired(c.id), tail))
    {
      ReadsRepaired(c.ts, tail);
      ReadsRepaired(c.id, tail);
    }
    TakeApartInvertsAssemble(Compact(), ReadString, ts, id, Repaired(c.ts), Repaired(c.id));
  }

  lemma {:induction false} PlainIsWrittenAlike(t: seq<Byte>)
    requires Plain(t) && NoMarkup(t)
    ensures WriteBytes(t) == t + [QUOTE]
  {
    if t != [] {
      var c := t[0];
      PlainIsWrittenAlike(t[1..]);
      assert FirstRune(t) == Some(c) && |Utf8(c)| == 1;
      assert Decompose(t) == [Rune(c)] + Decompose(t[1..]);
      assert EscapeGo(Rune(c)) == [c];
      hide Decompose, EscapeGo, FirstRune, Utf8;
      assert ([Rune(c)] + Decompose(t[1..]))[1..] == Decompose(t[1..]);
      assert t == [c] + t[1..];
    }
  }

  /** For timestamps and ids Go and Rust mint the same text. */
  lemma PlainTextIsRusts(c: Cursor)
    requires Plain(c.ts) && Plain(c.id) && NoMarkup(c.ts) && NoMarkup(c.id)
    ensures EncodeGo(c) == EncodeCursor(c)
  {
    hide Encode, Plain, NoMarkup, WriteBytes, WriteString, Assemble, Compact;
    PlainIsWrittenAlike(c.ts);
    PlainIsWrittenAlike(c.id);
    PlainIsWrittenAsItIs(c.ts);
    PlainIsWrittenAsItIs(c.id);
  }

  /** One byte that is not UTF-8 comes back as three. */
  lemma BadByteIsReplaced()
    ensures DecodeGo(EncodeGo(Cursor([0xFF], []))) == Some(Cursor([0xEF, 0xBF, 0xBD], []))
  {
    hide Utf8, DecodeGo, EncodeGo;
    GoCursorRoundTripIff(Cursor([0xFF], []));
    var bad: seq<Byte> := [0xFF];
    assert bad[1..] == [];
    assert FirstRune(bad).None?;
    assert Decompose(bad) == [Bad(0xFF)] && Decompose([]) == [];
    hide FirstRune, Decompose;
    assert AllReplaced([Bad(0xFF)]) == [Rune(REPLACEMENT)];
    assert AllReplaced([]) == [] && BytesOf([]) == [];
    hide BytesOf, AllReplaced;
    OneChar(Rune(REPLACEMENT));
    ReplacementBytes();
  }

  lemma ReplacementBytes()
    ensures Utf8(REPLACEMENT) == [0xEF, 0xBF, 0xBD]
  {
  }
}
