// The part of Go's encoding/json that the passes use on message contents:
// json.Marshal of a string and json.Unmarshal into a string (Go 1.22).
module JsonString {
  import opened ByteStrings
  import opened Utf8

  // ----- json.Marshal of a string -----

  function HexDigit(d: nat): byte
    requires d < 16
  {
    if d < 10 then 0x30 + d else 0x57 + d
  }

  /** `\u` and four hexadecimal digits. */
  function UnicodeEscape(r: nat): Bytes
    requires r < 0x10000
  {
    [BACKSLASH, 0x75, HexDigit(r / 0x1000), HexDigit(r / 0x100 % 16), HexDigit(r / 16 % 16), HexDigit(r % 16)]
  }

  /** The letter that follows the backslash in a two-byte escape of b, if b has one. */
  function ShortEscape(b: byte): Option<byte> {
    if b == QUOTE || b == BACKSLASH then Some(b)
    else if b == 0x08 then Some(0x62)
    else if b == 0x0C then Some(0x66)
    else if b == NEWLINE then Some(0x6E)
    else if b == RETURN then Some(0x72)
    else if b == TAB then Some(0x74)
    else None
  }

  /** Control characters and `<`, `>`, `&` are always escaped. */
  predicate MustEscape(b: byte) {
    b < 0x20 || b == 0x3C || b == 0x3E || b == 0x26
  }

  /** How many bytes the encoder consumes at the start of s. */
  function ChunkLen(s: Bytes): (n: nat)
    requires s != []
    ensures 1 <= n <= |s| && n <= 4
  {
    if RuneLen(s) == 0 then 1 else RuneLen(s)
  }

  /** What the encoder writes for them. */
  function EncodeChunk(s: Bytes): (e: Bytes)
    requires s != []
    ensures e != []
  {
    if s[0] < 0x80 then
      match ShortEscape(s[0])
      case Some(c) => [BACKSLASH, c]
      case None => if MustEscape(s[0]) then UnicodeEscape(s[0]) else [s[0]]
    else if RuneLen(s) == 0 then UnicodeEscape(0xFFFD)
    else if s[..RuneLen(s)] == [0xE2, 0x80, 0xA8] then UnicodeEscape(0x2028)
    else if s[..RuneLen(s)] == [0xE2, 0x80, 0xA9] then UnicodeEscape(0x2029)
    else s[..RuneLen(s)]
  }

  function EncodeBody(s: Bytes): Bytes {
    if s == [] then [] else EncodeChunk(s) + EncodeBody(s[ChunkLen(s)..])
  }

  function EncodeString(s: Bytes): Bytes {
    [QUOTE] + EncodeBody(s) + [QUOTE]
  }

  // ----- json.Unmarshal into a string -----

  function HexValue(b: byte): (v: Option<nat>)
    ensures v.Some? ==> v.value < 16
  {
    if 0x30 <= b <= 0x39 then Some(b - 0x30)
    else if 0x61 <= b <= 0x66 then Some(b - 0x57)
    else if 0x41 <= b <= 0x46 then Some(b - 0x37)
    else None
  }

  /** The code unit written by a `\uXXXX` escape at the start of t. */
  function CodeUnit(t: Bytes): (r: Option<nat>)
    ensures r.Some? ==> |t| >= 6 && r.value < 0x10000
  {
    if |t| < 6 || t[0] != BACKSLASH || t[1] != 0x75 then None else
    match (HexValue(t[2]), HexValue(t[3]), HexValue(t[4]), HexValue(t[5]))
    case (Some(a), Some(b), Some(c), Some(d)) => Some(a * 0x1000 + b * 0x100 + c * 16 + d)
    case _ => None
  }

  predicate Surrogate(r: nat) {
    0xD800 <= r < 0xE000
  }

  /** UTF-8 of one code point. */
  function EncodeRune(r: nat): Bytes
    requires r < 0x110000 && !Surrogate(r)
  {
    if r < 0x80 then [r]
    else if r < 0x800 then [0xC0 + r / 0x40, 0x80 + r % 0x40]
    else if r < 0x10000 then [0xE0 + r / 0x1000, 0x80 + r / 0x40 % 0x40, 0x80 + r % 0x40]
    else [0xF0 + r / 0x40000, 0x80 + r / 0x1000 % 0x40, 0x80 + r / 0x40 % 0x40, 0x80 + r % 0x40]
  }

  function ShortUnescape(c: byte): Option<byte> {
    if c == QUOTE || c == BACKSLASH || c == 0x2F then Some(c)
    else if c == 0x62 then Some(0x08)
    else if c == 0x66 then Some(0x0C)
    else if c == 0x6E then Some(NEWLINE)
    else if c == 0x72 then Some(RETURN)
    else if c == 0x74 then Some(TAB)
    else None
  }

  datatype Unit = Unit(text: Bytes, consumed: nat)

  /** A `\uXXXX` escape; a surrogate pair is one code point, a lone surrogate becomes U+FFFD. */
  function DecodeUnicode(t: Bytes): (u: Option<Unit>)
    ensures u.Some? ==> 0 < u.value.consumed <= |t|
  {
    match CodeUnit(t)
    case None => None
    case Some(r) =>
      if !Surrogate(r) then Some(Unit(EncodeRune(r), 6))
      else match CodeUnit(t[6..])
        case Some(q) =>
          if r < 0xDC00 && 0xDC00 <= q < 0xE000
          then Some(Unit(EncodeRune((r - 0xD800) * 0x400 + (q - 0xDC00) + 0x10000), 12))
          else Some(Unit(REPLACEMENT, 6))
        case None => Some(Unit(REPLACEMENT, 6))
  }

  /** One character or escape of a string literal. */
  function DecodeUnit(t: Bytes): (u: Option<Unit>)
    requires t != []
    ensures u.Some? ==> 0 < u.value.consumed <= |t|
  {
    if t[0] == BACKSLASH then
      if |t| < 2 then None
      else match ShortUnescape(t[1])
        case Some(b) => Some(Unit([b], 2))
        case None => DecodeUnicode(t)
    else if t[0] < 0x20 then None
    else if RuneLen(t) == 0 then Some(Unit(REPLACEMENT, 1))
    else Some(Unit(t[..RuneLen(t)], RuneLen(t)))
  }

  /** The rest of a string literal, up to and including its closing quote at the very end of t. */
  function DecodeBody(t: Bytes): Option<Bytes> {
    if t == [] then None
    else if t[0] == QUOTE then if |t| == 1 then Some([]) else None
    else match DecodeUnit(t)
      case None => None
      case Some(u) =>
        match DecodeBody(t[u.consumed..])
        case None => None
        case Some(rest) => Some(u.text + rest)
  }

  predicate JsonSpace(b: byte) {
    b == SPACE || b == TAB || b == NEWLINE || b == RETURN
  }

  function TrimJson(c: Bytes): (t: Bytes)
    ensures |t| <= |c|
  {
    if c == [] then []
    else if JsonSpace(c[0]) then TrimJson(c[1..])
    else if JsonSpace(c[|c| - 1]) then TrimJson(c[..|c| - 1])
    else c
  }

  const NULL: Bytes := Ascii("null")

  /** json.Unmarshal(c, &s) for an empty s: the text, or None for an error. A JSON null leaves s empty. */
  function DecodeString(c: Bytes): Option<Bytes> {
    var t := TrimJson(c);
    if t == NULL then Some([])
    else if t != [] && t[0] == QUOTE then DecodeBody(t[1..])
    else None
  }

  // ----- laws -----

  lemma HexDigitIs(d: nat)
    requires d < 16
    ensures HexDigit(d) == Ascii("0123456789abcdef")[d]
  {
    var s := "0123456789abcdef";
    assert s[0] == '0' && s[1] == '1' && s[2] == '2' && s[3] == '3' && s[4] == '4' && s[5] == '5' && s[6] == '6';
    assert s[7] == '7' && s[8] == '8' && s[9] == '9' && s[10] == 'a' && s[11] == 'b' && s[12] == 'c' && s[13] == 'd';
  }

  lemma HexRoundTrip(d: nat)
    requires d < 16
    ensures HexValue(HexDigit(d)) == Some(d)
  {
  }

  lemma FourDigits(r: nat)
    requires r < 0x10000
    ensures r / 0x1000 < 16
    ensures r / 0x1000 * 0x1000 + r / 0x100 % 16 * 0x100 + r / 16 % 16 * 16 + r % 16 == r
  {
    assert r / 0x100 == r / 16 / 16 && r / 0x1000 == r / 0x100 / 16;
  }

  lemma CodeUnitRoundTrip(r: nat, t: Bytes)
    requires r < 0x10000 && |t| >= 6
    requires forall i :: 0 <= i < 6 ==> t[i] == UnicodeEscape(r)[i]
    ensures CodeUnit(t) == Some(r)
  {
    FourDigits(r);
    HexRoundTrip(r / 0x1000);
    HexRoundTrip(r / 0x100 % 16);
    HexRoundTrip(r / 16 % 16);
    HexRoundTrip(r % 16);
  }

  lemma UnicodeRoundTrip(r: nat, rest: Bytes)
    requires r < 0x10000 && !Surrogate(r)
    ensures DecodeUnit(UnicodeEscape(r) + rest) == Some(Unit(EncodeRune(r), 6))
  {
    CodeUnitRoundTrip(r, UnicodeEscape(r) + rest);
  }

  function SanitizeChunk(s: Bytes): Bytes
    requires s != []
  {
    if RuneLen(s) == 0 then REPLACEMENT else s[..RuneLen(s)]
  }

  lemma AsciiRoundTrip(b: byte, rest: Bytes)
    requires b < 0x80
    ensures EncodeChunk([b])[0] != QUOTE
    ensures DecodeUnit(EncodeChunk([b]) + rest) == Some(Unit([b], |EncodeChunk([b])|))
  {
    var e := EncodeChunk([b]);
    if ShortEscape(b).None? && MustEscape(b) {
      UnicodeRoundTrip(b, rest);
    } else if ShortEscape(b).None? {
      assert (e + rest)[..1] == [b] && RuneLen(e + rest) == 1;
    } else {
      assert ShortUnescape(ShortEscape(b).value) == Some(b);
    }
  }

  lemma RuneRoundTrip(e: Bytes, rest: Bytes)
    requires e != [] && e[0] >= 0x80 && RuneLen(e) == |e|
    ensures DecodeUnit(e + rest) == Some(Unit(e, |e|))
  {
    RuneLenOfConcat(e, rest);
    SlicesOfConcat(e, rest, |e|);
  }

  lemma LongRoundTrip(e: Bytes, rest: Bytes)
    requires e != [] && e[0] >= 0x80 && RuneLen(e) == |e|
    ensures EncodeChunk(e)[0] != QUOTE
    ensures DecodeUnit(EncodeChunk(e) + rest) == Some(Unit(e, |EncodeChunk(e)|))
  {
    assert e[..|e|] == e;
    if e == [0xE2, 0x80, 0xA8] {
      assert EncodeRune(0x2028) == e;
      UnicodeRoundTrip(0x2028, rest);
    } else if e == [0xE2, 0x80, 0xA9] {
      assert EncodeRune(0x2029) == e;
      UnicodeRoundTrip(0x2029, rest);
    } else {
      assert EncodeChunk(e) == e;
      RuneRoundTrip(e, rest);
    }
  }

  lemma FirstChunk(s: Bytes)
    requires s != [] && RuneLen(s) > 0
    ensures var e := s[..RuneLen(s)]; e[0] == s[0] && RuneLen(e) == |e| && EncodeChunk(e) == EncodeChunk(s)
  {
    var e := s[..RuneLen(s)];
    assert e[..|e|] == e;
  }

  lemma ChunkRoundTrip(s: Bytes, rest: Bytes)
    requires s != []
    ensures var e := EncodeChunk(s);
            e[0] != QUOTE && DecodeUnit(e + rest) == Some(Unit(SanitizeChunk(s), |e|))
  {
    if RuneLen(s) == 0 {
      UnicodeRoundTrip(0xFFFD, rest);
    } else {
      FirstChunk(s);
      if RuneLen(s) == 1 {
        assert s[..1] == [s[0]];
        AsciiRoundTrip(s[0], rest);
      } else {
        LongRoundTrip(s[..RuneLen(s)], rest);
      }
    }
  }

  lemma {:induction false} BodyRoundTrip(s: Bytes)
    ensures DecodeBody(EncodeBody(s) + [QUOTE]) == Some(Sanitize(s))
  {
    if s == [] {
      assert EncodeBody(s) + [QUOTE] == [QUOTE];
    } else {
      var e := EncodeChunk(s);
      var rest := EncodeBody(s[ChunkLen(s)..]) + [QUOTE];
      assert EncodeBody(s) + [QUOTE] == e + rest;
      ChunkRoundTrip(s, rest);
      assert (e + rest)[|e|..] == rest;
      BodyRoundTrip(s[ChunkLen(s)..]);
    }
  }

  /** Decoding what the encoder wrote gives the text back, with U+FFFD for its invalid bytes. */
  lemma RoundTrip(s: Bytes)
    ensures DecodeString(EncodeString(s)) == Some(Sanitize(s))
  {
    var c := EncodeString(s);
    assert TrimJson(c) == c && c[0] != NULL[0];
    assert c[1..] == EncodeBody(s) + [QUOTE];
    BodyRoundTrip(s);
  }

  lemma RuneIsValid(r: nat)
    requires r < 0x110000 && !Surrogate(r)
    ensures Valid(EncodeRune(r)) && |EncodeRune(r)| <= 4
  {
    var e := EncodeRune(r);
    assert RuneLen(e) == |e|;
    assert e[|e|..] == [];
  }

  lemma UnitIsValid(t: Bytes)
    requires t != [] && DecodeUnit(t).Some?
    ensures Valid(DecodeUnit(t).value.text)
    ensures |DecodeUnit(t).value.text| <= 3 * DecodeUnit(t).value.consumed
  {
    assert RuneLen(REPLACEMENT) == 3 && REPLACEMENT[3..] == [] && Valid(REPLACEMENT);
    var u := DecodeUnit(t).value;
    if t[0] == BACKSLASH {
      match ShortUnescape(t[1])
      case Some(b) => AsciiValid([b]);
      case None =>
        var r := CodeUnit(t).value;
        if !Surrogate(r) {
          RuneIsValid(r);
        } else if u.consumed == 12 {
          RuneIsValid((r - 0xD800) * 0x400 + (CodeUnit(t[6..]).value - 0xDC00) + 0x10000);
        }
    } else if RuneLen(t) > 0 {
      assert RuneLen(u.text) == RuneLen(t) && u.text[RuneLen(t)..] == [];
    }
  }

  lemma {:induction false} BodyIsValid(t: Bytes)
    requires DecodeBody(t).Some?
    ensures Valid(DecodeBody(t).value) && |DecodeBody(t).value| <= 3 * |t|
  {
    if t[0] != QUOTE {
      var u := DecodeUnit(t).value;
      UnitIsValid(t);
      BodyIsValid(t[u.consumed..]);
      ValidConcat(u.text, DecodeBody(t[u.consumed..]).value);
    }
  }

  /** A decoded text is valid UTF-8 and at most three times as long as its literal. */
  lemma DecodedIsValid(c: Bytes)
    requires DecodeString(c).Some?
    ensures Valid(DecodeString(c).value) && |DecodeString(c).value| <= 3 * |c|
  {
    if TrimJson(c) != NULL {
      BodyIsValid(TrimJson(c)[1..]);
    }
  }

  lemma {:induction false} EncodeConcat(x: Bytes, y: Bytes)
    requires Valid(x) || Boundary(y)
    ensures EncodeBody(x + y) == EncodeBody(x) + EncodeBody(y)
  {
    if x == [] {
      assert x + y == y;
    } else {
      var n := ChunkLen(x);
      RuneLenOfConcat(x, y);
      SlicesOfConcat(x, y, n);
      SlicesOfConcat(x, y, RuneLen(x));
      EncodeConcat(x[n..], y);
      assert EncodeChunk(x + y) == EncodeChunk(x);
      ConcatAssociates(EncodeChunk(x), EncodeBody(x[n..]), EncodeBody(y));
    }
  }

  /** Printable ASCII that needs no escape. */
  predicate Plain(s: Bytes) {
    forall i :: 0 <= i < |s| ==> 0x20 <= s[i] < 0x80 && ShortEscape(s[i]).None? && !MustEscape(s[i])
  }

  lemma PlainAscii(s: string)
    requires forall c :: c in s ==> ' ' <= c < 128 as char && c !in ['"', '\\', '<', '>', '&']
    ensures Plain(Ascii(s))
  {
    assert forall i :: 0 <= i < |s| ==> s[i] in s;
  }

  lemma {:induction false} PlainEncodes(s: Bytes)
    requires Plain(s)
    ensures EncodeBody(s) == s && Valid(s)
  {
    if s != [] {
      PlainEncodes(s[1..]);
      assert RuneLen(s) == 1 && s == [s[0]] + s[1..];
    }
  }
}
