/** The opaque page cursor: JSON bytes in base64url (sections 4 and 5 of RFC 4648) without padding.
    Rust and Go use an unpadded codec; Python strips the padding and puts it back. */
module Codec {
  import opened Wrappers

  type Byte = x: int | 0 <= x < 256
  type Digit = x: int | 0 <= x < 64

  const PAD: char := '='

  // ---- The alphabet ----

  function Symbol(d: Digit): (c: char)
    ensures c != PAD
  {
    if d < 26 then 'A' + d as char
    else if d < 52 then 'a' + (d - 26) as char
    else if d < 62 then '0' + (d - 52) as char
    else if d == 62 then '-' else '_'
  }

  function Value(c: char): Option<Digit> {
    if 'A' <= c <= 'Z' then Some(c as int - 'A' as int)
    else if 'a' <= c <= 'z' then Some(c as int - 'a' as int + 26)
    else if '0' <= c <= '9' then Some(c as int - '0' as int + 52)
    else if c == '-' then Some(62)
    else if c == '_' then Some(63)
    else None
  }

  lemma ValueInvertsSymbol(c: char, d: Digit)
    ensures Value(c) == Some(d) <==> c == Symbol(d)
  {
  }

  /** Table 2 of RFC 4648: from A on, from a on, from 0 on, and two more. */
  lemma AlphabetRuns(d: Digit)
    ensures Symbol(0) == 'A' && Symbol(26) == 'a' && Symbol(52) == '0' && Symbol(62) == '-' && Symbol(63) == '_'
    ensures d < 62 && d != 0 && d != 26 && d != 52 ==> Symbol(d) == Symbol(d - 1) + 1 as char
  {
  }

  // ---- Groups: three bytes are four digits of six bits ----

  datatype Digits = Digits(d0: Digit, d1: Digit, d2: Digit, d3: Digit)
  datatype Bytes = Bytes(b0: Byte, b1: Byte, b2: Byte)

  function Cut(b: Bytes): Digits {
    Digits(b.b0 / 4, b.b0 % 4 * 16 + b.b1 / 16, b.b1 % 16 * 4 + b.b2 / 64, b.b2 % 64)
  }

  function Join(d: Digits): Bytes {
    Bytes(d.d0 * 4 + d.d1 / 16, d.d1 % 16 * 16 + d.d2 / 4, d.d2 % 4 * 64 + d.d3)
  }

  lemma Split4(q: int, r: int)
    requires 0 <= r < 4
    ensures (q * 4 + r) / 4 == q && (q * 4 + r) % 4 == r
  {
  }

  lemma Split16(q: int, r: int)
    requires 0 <= r < 16
    ensures (q * 16 + r) / 16 == q && (q * 16 + r) % 16 == r
  {
  }

  lemma Split64(q: int, r: int)
    requires 0 <= r < 64
    ensures (q * 64 + r) / 64 == q && (q * 64 + r) % 64 == r
  {
  }

  lemma JoinInvertsCut(b: Bytes)
    ensures Join(Cut(b)) == b
  {
    Split16(b.b0 % 4, b.b1 / 16);
    Split4(b.b1 % 16, b.b2 / 64);
  }

  lemma CutInvertsJoin(d: Digits)
    ensures Cut(Join(d)) == d
  {
    Split4(d.d0, d.d1 / 16);
    Split16(d.d1 % 16, d.d2 / 4);
    Split64(d.d2 % 4, d.d3);
  }

  /** Three bytes and their four digits are one number of 24 bits, the first bits first. */
  lemma CutKeepsTheNumber(b: Bytes)
    ensures var d := Cut(b);
            ((d.d0 * 64 + d.d1) * 64 + d.d2) * 64 + d.d3 == (b.b0 * 256 + b.b1) * 256 + b.b2
  {
  }

  /** A last group of one or two bytes has zeros for what is missing, and says no more. */
  lemma ShortGroups(b: Bytes)
    ensures b.b1 == b.b2 == 0 ==> Cut(b).d1 % 16 == 0 && Cut(b).d2 == Cut(b).d3 == 0
    ensures b.b2 == 0 ==> Cut(b).d2 % 4 == 0 && Cut(b).d3 == 0
  {
  }

  lemma ShortDigits(d: Digits)
    ensures d.d1 % 16 == 0 && d.d2 == d.d3 == 0 ==> Join(d).b1 == Join(d).b2 == 0
    ensures d.d2 % 4 == 0 && d.d3 == 0 ==> Join(d).b2 == 0
  {
  }

  // ---- Base64url without padding ----

  function Encode(bytes: seq<Byte>): string {
    if |bytes| == 0 then ""
    else if |bytes| == 1 then
      var d := Cut(Bytes(bytes[0], 0, 0));
      [Symbol(d.d0), Symbol(d.d1)]
    else if |bytes| == 2 then
      var d := Cut(Bytes(bytes[0], bytes[1], 0));
      [Symbol(d.d0), Symbol(d.d1), Symbol(d.d2)]
    else
      var d := Cut(Bytes(bytes[0], bytes[1], bytes[2]));
      [Symbol(d.d0), Symbol(d.d1), Symbol(d.d2), Symbol(d.d3)] + Encode(bytes[3..])
  }

  /** Rust's decoder is strict: the unused bits of the last digit must be zero. Go's ignores them. */
  function Decode(text: string, strict: bool): Option<seq<Byte>> {
    if |text| == 0 then Some([])
    else if |text| == 1 then None
    else
      var d0 :- Value(text[0]);
      var d1 :- Value(text[1]);
      if |text| == 2 then
        if strict && d1 % 16 != 0 then None else Some([Join(Digits(d0, d1, 0, 0)).b0])
      else
        var d2 :- Value(text[2]);
        if |text| == 3 then
          var b := Join(Digits(d0, d1, d2, 0));
          if strict && d2 % 4 != 0 then None else Some([b.b0, b.b1])
        else
          var d3 :- Value(text[3]);
          var b := Join(Digits(d0, d1, d2, d3));
          var rest :- Decode(text[4..], strict);
          Some([b.b0, b.b1, b.b2] + rest)
  }

  lemma DecodeInvertsTail(bytes: seq<Byte>, strict: bool)
    requires |bytes| < 3
    ensures Decode(Encode(bytes), strict) == Some(bytes)
  {
    if |bytes| > 0 {
      var b := Bytes(bytes[0], if |bytes| > 1 then bytes[1] else 0, 0);
      var d := Cut(b);
      JoinInvertsCut(b);
      ShortGroups(b);
      ValueInvertsSymbol(Symbol(d.d0), d.d0);
      ValueInvertsSymbol(Symbol(d.d1), d.d1);
      ValueInvertsSymbol(Symbol(d.d2), d.d2);
      hide Cut, Join, Symbol, Value;
      assert bytes == if |bytes| == 1 then [b.b0] else [b.b0, b.b1];
    }
  }

  lemma DecodeGroup(text: string, b: Bytes, rest: seq<Byte>, strict: bool)
    requires |text| >= 4 && Decode(text[4..], strict) == Some(rest)
    requires var d := Cut(b);
             && Value(text[0]) == Some(d.d0) && Value(text[1]) == Some(d.d1)
             && Value(text[2]) == Some(d.d2) && Value(text[3]) == Some(d.d3)
    ensures Decode(text, strict) == Some([b.b0, b.b1, b.b2] + rest)
  {
    JoinInvertsCut(b);
    hide Cut, Join, Value;
  }

  lemma EncodeGroup(bytes: seq<Byte>)
    requires |bytes| >= 3
    ensures var text, d := Encode(bytes), Cut(Bytes(bytes[0], bytes[1], bytes[2]));
            && |text| >= 4 && text[4..] == Encode(bytes[3..])
            && Value(text[0]) == Some(d.d0) && Value(text[1]) == Some(d.d1)
            && Value(text[2]) == Some(d.d2) && Value(text[3]) == Some(d.d3)
  {
    var d := Cut(Bytes(bytes[0], bytes[1], bytes[2]));
    ValueInvertsSymbol(Symbol(d.d0), d.d0);
    ValueInvertsSymbol(Symbol(d.d1), d.d1);
    ValueInvertsSymbol(Symbol(d.d2), d.d2);
    ValueInvertsSymbol(Symbol(d.d3), d.d3);
    hide Symbol, Value, Cut;
    var group := [Symbol(d.d0), Symbol(d.d1), Symbol(d.d2), Symbol(d.d3)];
    assert Encode(bytes) == group + Encode(bytes[3..]);
  }

  /** Whatever is encoded, the strict and the lenient decoder give back. */
  lemma {:induction false} DecodeInvertsEncode(bytes: seq<Byte>, strict: bool)
    ensures Decode(Encode(bytes), strict) == Some(bytes)
  {
    hide Encode, Decode, Symbol, Value, Cut;
    if |bytes| < 3 {
      DecodeInvertsTail(bytes, strict);
    } else {
      DecodeInvertsEncode(bytes[3..], strict);
      EncodeGroup(bytes);
      DecodeGroup(Encode(bytes), Bytes(bytes[0], bytes[1], bytes[2]), bytes[3..], strict);
      assert bytes == [bytes[0], bytes[1], bytes[2]] + bytes[3..];
    }
  }

  /** The strict decoder accepts nothing else: two texts never mean the same cursor. */
  lemma {:induction false} StrictDecodeIff(text: string, bytes: seq<Byte>)
    ensures Decode(text, true) == Some(bytes) <==> text == Encode(bytes)
    decreases |text|
  {
    DecodeInvertsEncode(bytes, true);
    if Decode(text, true) == Some(bytes) {
      if |text| >= 4 {
        StrictDecodeIff(text[4..], Decode(text[4..], true).value);
        WholeGroup(text, bytes);
      } else {
        LastGroup(text, bytes);
      }
    }
  }

  lemma SymbolOfValue(c: char)
    requires Value(c).Some?
    ensures Symbol(Value(c).value) == c
  {
    ValueInvertsSymbol(c, Value(c).value);
  }

  lemma WholeGroup(text: string, bytes: seq<Byte>)
    requires |text| >= 4 && Decode(text, true) == Some(bytes)
    requires text[4..] == Encode(Decode(text[4..], true).value)
    ensures text == Encode(bytes)
  {
    SymbolOfValue(text[0]);
    SymbolOfValue(text[1]);
    SymbolOfValue(text[2]);
    SymbolOfValue(text[3]);
    var d := Digits(Value(text[0]).value, Value(text[1]).value, Value(text[2]).value, Value(text[3]).value);
    CutInvertsJoin(d);
    hide Symbol, Value, Cut, Join;
    assert bytes[3..] == Decode(text[4..], true).value;
    assert text == [text[0], text[1], text[2], text[3]] + text[4..];
  }

  lemma LastGroup(text: string, bytes: seq<Byte>)
    requires |text| < 4 && Decode(text, true) == Some(bytes)
    ensures text == Encode(bytes)
  {
    if |text| >= 2 {
      SymbolOfValue(text[0]);
      SymbolOfValue(text[1]);
      if |text| == 3 {
        SymbolOfValue(text[2]);
      }
      var d := Digits(Value(text[0]).value, Value(text[1]).value, if |text| == 3 then Value(text[2]).value else 0, 0);
      CutInvertsJoin(d);
      ShortDigits(d);
      hide Symbol, Value, Cut, Join;
      assert Cut(Bytes(bytes[0], if |bytes| > 1 then bytes[1] else 0, 0)) == d;
      assert text == if |text| == 2 then [text[0], text[1]] else [text[0], text[1], text[2]];
    }
  }

  /** The number that these digits write, the first of them first. */
  function Number(base: int, digits: seq<int>): int {
    if digits == [] then 0 else Number(base, digits[..|digits| - 1]) * base + digits[|digits| - 1]
  }

  lemma NumberOfFew(base: int, digits: seq<int>)
    requires 0 < |digits| <= 4
    ensures |digits| == 1 ==> Number(base, digits) == digits[0]
    ensures |digits| == 2 ==> Number(base, digits) == digits[0] * base + digits[1]
    ensures |digits| == 3 ==> Number(base, digits) == (digits[0] * base + digits[1]) * base + digits[2]
    ensures |digits| == 4 ==> Number(base, digits) == ((digits[0] * base + digits[1]) * base + digits[2]) * base + digits[3]
  {
    var cut := digits[..|digits| - 1];
    if cut == [] {
      assert Number(base, cut) == 0;
    } else {
      NumberOfFew(base, cut);
    }
  }

  function DigitOf(c: char): int {
    if Value(c).Some? then Value(c).value else -1
  }

  lemma DigitOfSymbol(d: Digit)
    ensures DigitOf(Symbol(d)) == d
  {
    ValueInvertsSymbol(Symbol(d), d);
  }

  /** Section 4 of RFC 4648: the symbols of a group are the base 64 digits of the number that its bytes are
      in base 256, with zero bits at the end of a short group. */
  lemma EncodedNumber(bytes: seq<Byte>)
    ensures var text := Encode(bytes);
            match |bytes|
            case 0 => text == ""
            case 1 => |text| == 2 && Number(64, [DigitOf(text[0]), DigitOf(text[1])]) == Number(256, bytes) * 16
            case 2 => |text| == 3 && Number(64, [DigitOf(text[0]), DigitOf(text[1]), DigitOf(text[2])]) == Number(256, bytes) * 4
            case _ =>
              && |text| >= 4 && text[4..] == Encode(bytes[3..])
              && Number(64, [DigitOf(text[0]), DigitOf(text[1]), DigitOf(text[2]), DigitOf(text[3])]) == Number(256, bytes[..3])
  {
    if bytes != [] {
      var b := Bytes(bytes[0], if |bytes| > 1 then bytes[1] else 0, if |bytes| > 2 then bytes[2] else 0);
      var d, group := Cut(b), if |bytes| > 3 then bytes[..3] else bytes;
      CutKeepsTheNumber(b);
      ShortGroups(b);
      DigitOfSymbol(d.d0);
      DigitOfSymbol(d.d1);
      DigitOfSymbol(d.d2);
      DigitOfSymbol(d.d3);
      NumberOfFew(256, group);
      NumberOfFew(64, [d.d0, d.d1]);
      NumberOfFew(64, [d.d0, d.d1, d.d2]);
      NumberOfFew(64, [d.d0, d.d1, d.d2, d.d3]);
      hide Symbol, DigitOf, Cut, Number;
      if |bytes| >= 3 {
        assert bytes[..3] == group;
        assert Encode(bytes) == [Symbol(d.d0), Symbol(d.d1), Symbol(d.d2), Symbol(d.d3)] + Encode(bytes[3..]);
      }
    }
  }

  // ---- Python: padded base64url, stripped and restored ----

  function Pads(n: nat): string {
    seq(n, _ => PAD)
  }

  /** Section 4 of RFC 4648: the last group is filled up to four characters. */
  function EncodePadded(bytes: seq<Byte>): string {
    var text := Encode(bytes);
    text + Pads((3 - |bytes| % 3) % 3)
  }

  /** str.rstrip("=") */
  function StripPads(text: string): string {
    if text != [] && text[|text| - 1] == PAD then StripPads(text[..|text| - 1]) else text
  }

  /** raw + "=" * (-len(raw) % 4) */
  function RestorePads(raw: string): string {
    raw + Pads(-|raw| % 4)
  }

  /** The padded decoder: groups of four, the last of which may end in one or two pads. */
  function DecodePadded(text: string): Option<seq<Byte>> {
    if |text| == 0 then Some([])
    else if |text| < 4 then None
    else if |text| == 4 && text[3] == PAD then
      Decode(if text[2] == PAD then text[..2] else text[..3], false)
    else
      var group :- Decode(text[..4], false);
      var rest :- DecodePadded(text[4..]);
      Some(group + rest)
  }

  lemma {:induction false} EncodedLength(bytes: seq<Byte>)
    ensures |Encode(bytes)| == |bytes| / 3 * 4 + match |bytes| % 3 case 0 => 0 case 1 => 2 case _ => 3
  {
    if |bytes| >= 3 {
      EncodeGroup(bytes);
      hide Encode, Value;
      EncodedLength(bytes[3..]);
    }
  }

  lemma {:induction false} NoPadInside(bytes: seq<Byte>)
    ensures forall i :: 0 <= i < |Encode(bytes)| ==> Encode(bytes)[i] != PAD
  {
    hide Symbol;
    if |bytes| >= 3 {
      NoPadInside(bytes[3..]);
      EncodeGroup(bytes);
      var text := Encode(bytes);
      hide Encode;
      forall i | 0 <= i < |text|
        ensures text[i] != PAD
      {
        assert i >= 4 ==> text[i] == text[4..][i - 4];
        assert Value(PAD) == None;
      }
    }
  }

  lemma {:induction false} StripRemovesPads(text: string, n: nat)
    requires text == [] || text[|text| - 1] != PAD
    ensures StripPads(text + Pads(n)) == text
  {
    if n == 0 {
      assert text + Pads(0) == text;
    } else {
      assert (text + Pads(n))[..|text| + n - 1] == text + Pads(n - 1);
      StripRemovesPads(text, n - 1);
    }
  }

  /** Stripping the pads of an encoded text and restoring -len % 4 of them gives the text back. */
  lemma RestoreInvertsStrip(bytes: seq<Byte>)
    ensures StripPads(EncodePadded(bytes)) == Encode(bytes)
    ensures RestorePads(Encode(bytes)) == EncodePadded(bytes)
  {
    EncodedLength(bytes);
    NoPadInside(bytes);
    hide Encode;
    StripRemovesPads(Encode(bytes), (3 - |bytes| % 3) % 3);
  }

  lemma {:induction false} PaddedGroups(bytes: seq<Byte>)
    ensures DecodePadded(EncodePadded(bytes)) == Some(bytes)
  {
    hide Encode, Decode, Symbol, Value, DecodePadded;
    if |bytes| < 3 {
      DecodeInvertsTail(bytes, false);
      PaddedTail(bytes);
    } else {
      PaddedGroups(bytes[3..]);
      EncodeGroup(bytes);
      FirstGroup(bytes);
      NoPadInside(bytes);
      var text := EncodePadded(bytes);
      assert text[4..] == EncodePadded(bytes[3..]);
      assert text[..4] == Encode(bytes)[..4];
      assert text[3] == Encode(bytes)[3];
      PaddedGroup(text);
      assert bytes == bytes[..3] + bytes[3..];
    }
  }

  lemma PaddedGroup(text: string)
    requires |text| >= 4 && text[3] != PAD && Decode(text[..4], false).Some? && DecodePadded(text[4..]).Some?
    ensures DecodePadded(text) == Some(Decode(text[..4], false).value + DecodePadded(text[4..]).value)
  {
    hide Decode;
  }

  lemma PaddedTail(bytes: seq<Byte>)
    requires |bytes| < 3
    ensures DecodePadded(EncodePadded(bytes)) == Decode(Encode(bytes), false)
  {
    assert Decode("", false) == Some([]);
    hide Symbol, Value, Decode;
    PaddedTexts(bytes);
    if |bytes| > 0 {
      hide Encode, EncodePadded, DecodePadded;
      NoPadInside(bytes);
      PaddedLast(Encode(bytes));
    }
  }

  lemma PaddedTexts(bytes: seq<Byte>)
    ensures |bytes| == 0 ==> EncodePadded(bytes) == Encode(bytes) == ""
    ensures |bytes| == 1 ==> |Encode(bytes)| == 2 && EncodePadded(bytes) == Encode(bytes) + [PAD, PAD]
    ensures |bytes| == 2 ==> |Encode(bytes)| == 3 && EncodePadded(bytes) == Encode(bytes) + [PAD]
  {
    hide Symbol;
    assert Pads(2) == [PAD, PAD] && Pads(1) == [PAD] && Pads(0) == "";
    hide Pads;
    if |bytes| < 3 {
      assert (3 - |bytes| % 3) % 3 == if |bytes| == 0 then 0 else 3 - |bytes|;
    }
  }

  lemma PaddedLast(raw: string)
    requires 2 <= |raw| <= 3 && forall i :: 0 <= i < |raw| ==> raw[i] != PAD
    ensures |raw| == 2 ==> DecodePadded(raw + [PAD, PAD]) == Decode(raw, false)
    ensures |raw| == 3 ==> DecodePadded(raw + [PAD]) == Decode(raw, false)
  {
    hide Decode;
    if |raw| == 2 {
      assert (raw + [PAD, PAD])[..2] == raw;
    } else {
      assert (raw + [PAD])[..3] == raw;
    }
  }

  /** The first group on its own decodes to the first three bytes. */
  lemma FirstGroup(bytes: seq<Byte>)
    requires |bytes| >= 3
    ensures |Encode(bytes)| >= 4 && Decode(Encode(bytes)[..4], false) == Some(bytes[..3])
  {
    EncodeGroup(bytes);
    var group := Encode(bytes)[..4];
    assert group[4..] == "" && Decode(group[4..], false) == Some([]);
    hide Encode, Decode, Symbol, Value;
    DecodeGroup(group, Bytes(bytes[0], bytes[1], bytes[2]), [], false);
    assert [bytes[0], bytes[1], bytes[2]] + [] == bytes[..3];
  }
}
