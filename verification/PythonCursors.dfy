/** Python's cursor: json.dumps and json.loads over strings of code points. The text is ASCII; whatever
    is not printable ASCII is escaped by UTF-16 code units, two of them from 0x10000 up. */
module PythonCursors {
  import opened Wrappers
  import opened Codec
  import opened Cursors

  /** A Python string may hold lone surrogates. */
  type CodePoint = x: int | 0 <= x < 0x11_0000

  type PyString = seq<CodePoint>

  // ---- json.dumps ----

  function HighOf(c: int): int
    requires 0x1_0000 <= c < 0x11_0000
  {
    0xD800 + (c - 0x1_0000) / 1024
  }

  function LowOf(c: int): int
    requires 0x1_0000 <= c < 0x11_0000
  {
    0xDC00 + (c - 0x1_0000) % 1024
  }

  function PairOf(high: int, low: int): CodePoint
    requires IsHigh(high) && IsLow(low)
  {
    0x1_0000 + (high - 0xD800) * 1024 + (low - 0xDC00)
  }

  lemma PairInvertsSplit(c: int)
    requires 0x1_0000 <= c < 0x11_0000
    ensures IsHigh(HighOf(c)) && IsLow(LowOf(c)) && PairOf(HighOf(c), LowOf(c)) == c
  {
  }

  function EscapeChar(c: CodePoint): seq<Byte> {
    if c < 128 && ShortEscape(c).Some? then [BACKSLASH, ShortEscape(c).value]
    else if 0x20 <= c < 0x7F then [c]
    else if c < 0x1_0000 then UnitEscape(c)
    else UnitEscape(HighOf(c)) + UnitEscape(LowOf(c))
  }

  function WritePython(s: PyString): seq<Byte> {
    if s == [] then [QUOTE] else EscapeChar(s[0]) + WritePython(s[1..])
  }

  predicate PrintableAscii(t: seq<Byte>) {
    forall i | 0 <= i < |t| :: 0x20 <= t[i] < 0x7F
  }

  /** What json.dumps writes is printable ASCII, whatever the string. */
  lemma {:induction false} DumpsAscii(s: PyString)
    ensures PrintableAscii(WritePython(s))
  {
    if s != [] {
      DumpsAscii(s[1..]);
      assert PrintableAscii(EscapeChar(s[0]));
      hide EscapeChar;
    }
  }

  // ---- json.loads ----

  /** After a backslash and u: a high surrogate takes a low one that follows, and stays alone if none does. */
  function ReadPythonUnicode(t: seq<Byte>): (r: Option<(CodePoint, seq<Byte>)>)
    ensures r.Some? ==> |r.value.1| < |t|
  {
    var u :- ReadHex(t);
    if IsHigh(u) && |t| >= 6 && t[4] == BACKSLASH && t[5] == 0x75 then
      var v :- ReadHex(t[6..]);
      if IsLow(v) then Some((PairOf(u, v), t[10..])) else Some((u, t[4..]))
    else Some((u, t[4..]))
  }

  function ReadPython(t: seq<Byte>): (r: Option<(PyString, seq<Byte>)>)
    ensures r.Some? ==> |r.value.1| < |t|
    decreases |t|
  {
    if t == [] || t[0] < 0x20 || t[0] >= 0x80 then None
    else if t[0] == QUOTE then Some(([], t[1..]))
    else if t[0] != BACKSLASH then Push(t[0], ReadPython(t[1..]))
    else if |t| < 2 then None
    else if t[1] == 0x75 then
      var (c, after) :- ReadPythonUnicode(t[2..]);
      Push(c, ReadPython(after))
    else
      var b :- ReadShort(t[1]);
      Push(b, ReadPython(t[2..]))
  }

  function Push(c: CodePoint, r: Option<(PyString, seq<Byte>)>): (p: Option<(PyString, seq<Byte>)>)
    ensures p.Some? <==> r.Some?
    ensures p.Some? ==> p.value.1 == r.value.1
  {
    if r.Some? then Some(([c] + r.value.0, r.value.1)) else None
  }

  // ---- What is read back ----

  /** The string with every high surrogate followed by a low one replaced by the character they encode. */
  function Paired(s: PyString): PyString {
    if s == [] then []
    else if |s| >= 2 && IsHigh(s[0]) && IsLow(s[1]) then [PairOf(s[0], s[1])] + Paired(s[2..])
    else [s[0]] + Paired(s[1..])
  }

  /** No high surrogate is followed by a low one: true of all text that has an encoding. */
  predicate NoPairs(s: PyString) {
    forall i :: 0 <= i < |s| - 1 ==> !(IsHigh(s[i]) && IsLow(s[i + 1]))
  }

  lemma {:induction false} PairedIsSameIff(s: PyString)
    ensures |Paired(s)| <= |s|
    ensures Paired(s) == s <==> NoPairs(s)
    ensures Paired(s) != s ==> |Paired(s)| < |s|
  {
    if s != [] {
      if |s| >= 2 && IsHigh(s[0]) && IsLow(s[1]) {
        PairedIsSameIff(s[2..]);
        assert s[0 + 1] == s[1];
      } else {
        PairedIsSameIff(s[1..]);
        assert s == [s[0]] + s[1..];
        NoPairsTail(s);
      }
    }
  }

  lemma NoPairsTail(s: PyString)
    requires s != []
    ensures NoPairs(s) <==> NoPairs(s[1..]) && !(|s| >= 2 && IsHigh(s[0]) && IsLow(s[1]))
  {
    hide IsHigh, IsLow;
    if NoPairs(s) {
      forall i | 0 <= i < |s[1..]| - 1
        ensures !(IsHigh(s[1..][i]) && IsLow(s[1..][i + 1]))
      {
        assert !(IsHigh(s[i + 1]) && IsLow(s[i + 1 + 1]));
      }
      assert |s| >= 2 ==> !(IsHigh(s[0]) && IsLow(s[0 + 1]));
    }
    if NoPairs(s[1..]) && !(|s| >= 2 && IsHigh(s[0]) && IsLow(s[1])) {
      forall i | 0 <= i < |s| - 1
        ensures !(IsHigh(s[i]) && IsLow(s[i + 1]))
      {
        assert i > 0 ==> s[i] == s[1..][i - 1] && s[i + 1] == s[1..][i - 1 + 1];
      }
    }
  }

  /** The text goes on with the escape of this code unit. */
  predicate StartsWithUnit(t: seq<Byte>, u: int) {
    |t| >= 6 && t[0] == BACKSLASH && t[1] == 0x75 && ReadHex(t[2..]) == Some(u)
  }

  /** The text does not go on with an escape by code unit. */
  predicate NoUnitAhead(t: seq<Byte>) {
    !(|t| >= 2 && t[0] == BACKSLASH && t[1] == 0x75)
  }

  /** A high surrogate read just before this text finds no low one to take. */
  ghost predicate NoLowAhead(t: seq<Byte>) {
    NoUnitAhead(t) || exists v :: StartsWithUnit(t, v) && !IsLow(v)
  }

  lemma ReadsUnit(u: int, t: seq<Byte>)
    requires 0 <= u < 0x1_0000
    requires IsHigh(u) ==> NoLowAhead(t)
    ensures ReadPython(UnitEscape(u) + t) == Push(u, ReadPython(t))
  {
    var text := FourHex(u) + t;
    FourHexIsRead(u, t);
    assert (UnitEscape(u) + t)[2..] == text;
    assert |t| >= 2 ==> text[4] == t[0] && text[5] == t[1];
    if IsHigh(u) && !NoUnitAhead(t) {
      assert text[6..] == t[2..];
    }
    hide FourHex, ReadHex;
    assert ReadPythonUnicode(text) == Some((u, t));
    hide ReadPythonUnicode;
  }

  lemma PairIsRead(u: int, v: int, t: seq<Byte>)
    requires IsHigh(u) && IsLow(v)
    ensures ReadPythonUnicode(FourHex(u) + (UnitEscape(v) + t)) == Some((PairOf(u, v), t))
  {
    var text := FourHex(u) + (UnitEscape(v) + t);
    FourHexIsRead(u, UnitEscape(v) + t);
    FourHexIsRead(v, t);
    assert |FourHex(u)| == 4 && |FourHex(v)| == 4;
    hide FourHex, ReadHex, PairOf;
    assert text[4] == BACKSLASH && text[5] == 0x75;
    assert text[6..] == FourHex(v) + t;
    assert text[10..] == t;
  }

  lemma ReadsPair(u: int, v: int, t: seq<Byte>)
    requires IsHigh(u) && IsLow(v)
    ensures ReadPython(UnitEscape(u) + (UnitEscape(v) + t)) == Push(PairOf(u, v), ReadPython(t))
  {
    var text := FourHex(u) + (UnitEscape(v) + t);
    assert (UnitEscape(u) + (UnitEscape(v) + t))[2..] == text;
    PairIsRead(u, v, t);
    hide ReadPythonUnicode, FourHex, PairOf;
  }

  lemma UnitAhead(u: int, t: seq<Byte>)
    requires 0 <= u < 0x1_0000
    ensures StartsWithUnit(UnitEscape(u) + t, u)
  {
    FourHexIsRead(u, t);
    hide ReadHex, FourHex;
    assert (UnitEscape(u) + t)[2..] == FourHex(u) + t;
  }

  /** What an escaped character begins with: an escape by a low surrogate only if it is one. */
  lemma EscapeAhead(c: CodePoint, t: seq<Byte>)
    ensures NoUnitAhead(EscapeChar(c) + t) || exists v :: StartsWithUnit(EscapeChar(c) + t, v) && (IsLow(v) <==> IsLow(c))
  {
    hide UnitEscape, StartsWithUnit, ShortEscape, ReadShort;
    if c < 0x7F {
      ShortEscapes(c);
    }
    if c < 0x7F && (ShortEscape(c).Some? || c >= 0x20) {
      assert NoUnitAhead(EscapeChar(c) + t);
    } else if c < 0x1_0000 {
      hide NoUnitAhead;
      DelHasNoShortEscape();
      UnitAhead(c, t);
    } else {
      hide NoUnitAhead;
      PairInvertsSplit(c);
      UnitAhead(HighOf(c), UnitEscape(LowOf(c)) + t);
      assert EscapeChar(c) + t == UnitEscape(HighOf(c)) + (UnitEscape(LowOf(c)) + t);
    }
  }

  lemma DelHasNoShortEscape()
    ensures ShortEscape(0x7F).None?
  {
  }

  lemma ReadsPlainChar(c: CodePoint, t: seq<Byte>)
    requires 0x20 <= c < 0x7F && c != QUOTE && c != BACKSLASH
    ensures ReadPython([c] + t) == Push(c, ReadPython(t))
  {
    assert ([c] + t)[1..] == t;
  }

  lemma ReadsShortChar(e: Byte, c: Byte, t: seq<Byte>)
    requires ReadShort(e) == Some(c)
    ensures ReadPython([BACKSLASH, e] + t) == Push(c, ReadPython(t))
  {
    assert e != 0x75;
    hide ReadShort, ReadPythonUnicode;
    assert ([BACKSLASH, e] + t)[2..] == t;
  }

  lemma ReadsOneChar(c: CodePoint, t: seq<Byte>)
    requires IsHigh(c) ==> NoLowAhead(t)
    ensures ReadPython(EscapeChar(c) + t) == Push(c, ReadPython(t))
  {
    hide UnitEscape, NoLowAhead, ReadPythonUnicode, ReadPython, ShortEscape, ReadShort;
    if c < 128 {
      ShortEscapes(c);
    }
    if c < 128 && ShortEscape(c).Some? {
      ReadsShortChar(ShortEscape(c).value, c, t);
    } else if 0x20 <= c < 0x7F {
      ReadsPlainChar(c, t);
    } else if c < 0x1_0000 {
      ReadsUnit(c, t);
    } else {
      PairInvertsSplit(c);
      ReadsPair(HighOf(c), LowOf(c), t);
      assert EscapeChar(c) + t == UnitEscape(HighOf(c)) + (UnitEscape(LowOf(c)) + t);
    }
  }

  lemma WriteUnfolds(s: PyString, t: seq<Byte>)
    requires s != []
    ensures WritePython(s) + t == EscapeChar(s[0]) + (WritePython(s[1..]) + t)
  {
    hide EscapeChar;
  }

  /** A high surrogate stays alone unless a low one is written after it. */
  lemma AloneBefore(s: PyString, t: seq<Byte>)
    requires s == [] || !IsLow(s[0])
    ensures NoLowAhead(WritePython(s) + t)
  {
    if s == [] {
      assert NoUnitAhead(WritePython(s) + t);
    } else {
      hide WritePython, EscapeChar, StartsWithUnit, NoUnitAhead;
      WriteUnfolds(s, t);
      EscapeAhead(s[0], WritePython(s[1..]) + t);
    }
  }

  /** Every string is read back, whatever follows it, but for its surrogate pairs. */
  lemma {:induction false} ReadsPaired(s: PyString, t: seq<Byte>)
    ensures ReadPython(WritePython(s) + t) == Some((Paired(s), t))
  {
    if s == [] {
      assert (WritePython(s) + t)[1..] == t;
    } else {
      hide ReadPython, WritePython, EscapeChar, NoLowAhead, UnitEscape;
      WriteUnfolds(s, t);
      if |s| >= 2 && IsHigh(s[0]) && IsLow(s[1]) {
        ReadsPaired(s[2..], t);
        SurrogateEscape(s[0]);
        SurrogateEscape(s[1]);
        WriteUnfolds(s[1..], t);
        assert s[1..][1..] == s[2..];
        ReadsPair(s[0], s[1], WritePython(s[2..]) + t);
      } else {
        ReadsPaired(s[1..], t);
        if IsHigh(s[0]) {
          AloneBefore(s[1..], t);
        }
        ReadsOneChar(s[0], WritePython(s[1..]) + t);
      }
    }
  }

  lemma SurrogateEscape(c: CodePoint)
    requires IsHigh(c) || IsLow(c)
    ensures EscapeChar(c) == UnitEscape(c)
  {
  }

  // ---- The cursor ----

  /** json.dumps puts a space after each colon and comma. */
  function Spaced(): Layout {
    Layout(Ascii("{\"ts\": \""), Ascii(", \"id\": \""), Ascii("}"))
  }

  function EncodePython(ts: PyString, id: PyString): string {
    StripPads(EncodePadded(Assemble(Spaced(), WritePython(ts), WritePython(id))))
  }

  function DecodePython(raw: string): Option<(PyString, PyString)> {
    var bytes :- DecodePadded(RestorePads(raw));
    TakeApart(Spaced(), ReadPython, bytes)
  }

  /** Decoding an encoded cursor gives it back exactly when neither string spells a character as two
      surrogates, which no timestamp and no id does; then it gives back the character. */
  lemma PythonCursorRoundTripIff(ts: PyString, id: PyString)
    ensures DecodePython(EncodePython(ts, id)) == Some((Paired(ts), Paired(id)))
    ensures DecodePython(EncodePython(ts, id)) == Some((ts, id)) <==> NoPairs(ts) && NoPairs(id)
  {
    hide ReadPython, WritePython, Spaced, Assemble, TakeApart, Paired, NoPairs, StripPads, EncodePadded, DecodePadded, RestorePads;
    var bytes := Assemble(Spaced(), WritePython(ts), WritePython(id));
    RestoreInvertsStrip(bytes);
    PaddedGroups(bytes);
    forall tail
      ensures ReadPython(WritePython(ts) + tail) == Some((Paired(ts), tail))
      ensures ReadPython(WritePython(id) + tail) == Some((Paired(id), tail))
    {
      ReadsPaired(ts, tail);
      ReadsPaired(id, tail);
    }
    TakeApartInvertsAssemble(Spaced(), ReadPython, WritePython(ts), WritePython(id), Paired(ts), Paired(id));
    PairedIsSameIff(ts);
    PairedIsSameIff(id);
  }

  lemma {:induction false} PlainIsDumpedAsItIs(s: seq<Byte>)
    requires Plain(s)
    ensures WritePython(s) == s + [QUOTE]
  {
    if s != [] {
      PlainIsDumpedAsItIs(s[1..]);
      assert EscapeChar(s[0]) == [s[0]];
      assert s == [s[0]] + s[1..];
    }
  }

  lemma SpacedQuoteFirst()
    ensures Ascii("\", \"id\": \"") == [QUOTE] + Ascii(", \"id\": \"") && Ascii("\"}") == [QUOTE] + Ascii("}")
  {
  }

  /** Between the base64url, a cursor of plain strings is this object. */
  lemma PlainCursorText(ts: seq<Byte>, id: seq<Byte>)
    requires Plain(ts) && Plain(id)
    ensures Decode(EncodePython(ts, id), true)
         == Some(Ascii("{\"ts\": \"") + ts + Ascii("\", \"id\": \"") + id + Ascii("\"}"))
  {
    hide Encode, Decode, WritePython, Ascii, Plain, StripPads, EncodePadded, RestorePads;
    var bytes := Assemble(Spaced(), WritePython(ts), WritePython(id));
    RestoreInvertsStrip(bytes);
    DecodeInvertsEncode(bytes, true);
    PlainIsDumpedAsItIs(ts);
    PlainIsDumpedAsItIs(id);
    SpacedQuoteFirst();
    Regroup(Ascii("{\"ts\": \""), ts, [QUOTE], Ascii(", \"id\": \""), id, Ascii("}"));
  }

  /** One character, spelled as two surrogates, comes back as one. */
  lemma SplitCharacterIsJoined()
    ensures DecodePython(EncodePython([0xD83D, 0xDE00], [])) == Some(([0x1_F600], []))
  {
    var split: PyString := [0xD83D, 0xDE00];
    PythonCursorRoundTripIff(split, []);
    hide DecodePython, EncodePython;
    assert split[2..] == [];
    assert Paired(split) == [PairOf(0xD83D, 0xDE00)];
  }
}
