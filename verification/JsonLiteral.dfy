// The string codec and UTF-8 in literal bytes: what encoding/json writes and reads
// (Go 1.22; internal/pipeline/compact_history.go:74-110), and section 3 of RFC 3629.
module JsonLiteral {
  import opened ByteStrings
  import opened Utf8
  import opened JsonString

  /** The examples of section 7 of RFC 3629, and the replacement character. */
  lemma RuneExamples()
    ensures EncodeRune(0x41) == [0x41] && EncodeRune(0x391) == [0xCE, 0x91]
    ensures EncodeRune(0x2262) == [0xE2, 0x89, 0xA2] && EncodeRune(0x233B4) == [0xF0, 0xA3, 0x8E, 0xB4]
    ensures EncodeRune(0xFFFD) == [0xEF, 0xBF, 0xBD]
  {
  }

  /** s starts with the UTF-8 form of the code point r. */
  predicate StartsWith(s: Bytes, r: nat) {
    r < 0x110000 && !(0xD800 <= r < 0xE000) && EncodeRune(r) <= s
  }

  lemma RuneIsRead(s: Bytes, r: nat)
    requires s != [] && StartsWith(s, r)
    ensures RuneLen(s) == |EncodeRune(r)|
  {
    RuneIsValid(r);
    var e := EncodeRune(r);
    assert s == e + s[|e|..];
    RuneLenOfConcat(e, s[|e|..]);
  }

  function Two(a: int, b: int): int {
    (a - 0xC0) * 0x40 + (b - 0x80)
  }

  function Three(a: int, b: int, c: int): int {
    (a - 0xE0) * 0x1000 + (b - 0x80) * 0x40 + (c - 0x80)
  }

  function Four(a: int, b: int, c: int, d: int): int {
    (a - 0xF0) * 0x40000 + (b - 0x80) * 0x1000 + (c - 0x80) * 0x40 + (d - 0x80)
  }

  lemma TwoIs(a: byte, b: byte)
    requires 0xC2 <= a <= 0xDF && Continuation(b)
    ensures 0x80 <= Two(a, b) < 0x800 && EncodeRune(Two(a, b)) == [a, b]
  {
  }

  lemma ThreeIs(a: byte, b: byte, c: byte)
    requires 0xE0 <= a <= 0xEF && SecondByte(a, b) && Continuation(c)
    ensures 0x800 <= Three(a, b, c) < 0x10000 && !Surrogate(Three(a, b, c))
    ensures EncodeRune(Three(a, b, c)) == [a, b, c]
  {
  }

  lemma Base64(x: int, y: int, z: int, w: int)
    requires 0 <= x && 0 <= y < 0x40 && 0 <= z < 0x40 && 0 <= w < 0x40
    ensures var r := x * 0x40000 + y * 0x1000 + z * 0x40 + w;
            r / 0x40000 == x && r / 0x1000 % 0x40 == y && r / 0x40 % 0x40 == z && r % 0x40 == w
  {
    var r := x * 0x40000 + y * 0x1000 + z * 0x40 + w;
    assert r / 0x40 == x * 0x1000 + y * 0x40 + z;
    assert r / 0x1000 == x * 0x40 + y;
  }

  lemma FourIs(a: byte, b: byte, c: byte, d: byte)
    requires 0xF0 <= a <= 0xF4 && SecondByte(a, b) && Continuation(c) && Continuation(d)
    ensures 0x10000 <= Four(a, b, c, d) < 0x110000
    ensures EncodeRune(Four(a, b, c, d)) == [a, b, c, d]
  {
    Base64(a as int - 0xF0, b as int - 0x80, c as int - 0x80, d as int - 0x80);
  }

  /** The code point of the character at the start of s. */
  function CodePoint(s: Bytes): nat
    requires s != [] && RuneLen(s) > 0
  {
    match RuneLen(s)
    case 1 => s[0]
    case 2 => Two(s[0], s[1])
    case 3 => Three(s[0], s[1], s[2])
    case _ => Four(s[0], s[1], s[2], s[3])
  }

  lemma CodePointIs(s: Bytes)
    requires s != [] && RuneLen(s) > 0
    ensures StartsWith(s, CodePoint(s))
  {
    if RuneLen(s) == 2 {
      TwoIs(s[0], s[1]);
    } else if RuneLen(s) == 3 {
      ThreeIs(s[0], s[1], s[2]);
    } else if RuneLen(s) == 4 {
      FourIs(s[0], s[1], s[2], s[3]);
    }
  }

  /** Characters are exactly the UTF-8 forms of the code points that are no surrogates. */
  lemma RunesExactly(s: Bytes)
    requires s != []
    ensures RuneLen(s) > 0 <==> exists r :: StartsWith(s, r)
  {
    if RuneLen(s) > 0 {
      CodePointIs(s);
    }
    if r :| StartsWith(s, r) {
      RuneIsRead(s, r);
    }
  }

  /** What a byte below 0x80 is written as. */
  lemma AsciiWritten(b: byte)
    requires b < 0x80
    ensures var e := EncodeString([b]);
            && (b == 0x22 || b == 0x5C ==> e == [0x22, 0x5C, b, 0x22])
            && (b == 0x08 ==> e == [0x22, 0x5C] + Ascii("b") + [0x22])
            && (b == 0x0C ==> e == [0x22, 0x5C] + Ascii("f") + [0x22])
            && (b == 0x0A ==> e == [0x22, 0x5C] + Ascii("n") + [0x22])
            && (b == 0x0D ==> e == [0x22, 0x5C] + Ascii("r") + [0x22])
            && (b == 0x09 ==> e == [0x22, 0x5C] + Ascii("t") + [0x22])
    ensures var e := EncodeString([b]);
            var escaped := b == 0x22 || b == 0x5C || b == 0x08 || b == 0x0C || b == 0x0A || b == 0x0D || b == 0x09;
            && (!escaped && (b < 0x20 || b == 0x3C || b == 0x3E || b == 0x26) ==>
                  e == [0x22, 0x5C] + Ascii("u00") + [HexDigit(b / 16), HexDigit(b % 16), 0x22])
            && (!escaped && !(b < 0x20 || b == 0x3C || b == 0x3E || b == 0x26) ==> e == [0x22, b, 0x22])
  {
    assert [b][1..] == [];
    assert EncodeBody([b]) == EncodeChunk([b]) + EncodeBody([]);
  }

  /** Other characters are written as they are, but for the line and paragraph separators. */
  lemma RuneWritten(r: nat)
    requires 0x80 <= r < 0x110000 && !(0xD800 <= r < 0xE000)
    ensures r != 0x2028 && r != 0x2029 ==> EncodeString(EncodeRune(r)) == [0x22] + EncodeRune(r) + [0x22]
    ensures r == 0x2028 ==> EncodeString(EncodeRune(r)) == [0x22, 0x5C] + Ascii("u2028") + [0x22]
    ensures r == 0x2029 ==> EncodeString(EncodeRune(r)) == [0x22, 0x5C] + Ascii("u2029") + [0x22]
  {
    var e := EncodeRune(r);
    RuneIsRead(e, r);
    assert e[..|e|] == e && e[|e|..] == [];
    assert EncodeBody(e) == EncodeChunk(e) + EncodeBody([]);
    HexDigitIs(0x2028 % 16);
  }

  /** A byte that starts no character is written as an escape. */
  lemma InvalidWritten(s: Bytes)
    requires s != [] && forall r :: !StartsWith(s, r)
    ensures EncodeBody(s) == [0x5C] + Ascii("ufffd") + EncodeBody(s[1..])
  {
    RunesExactly(s);
  }

  /** A quoted literal is decoded by its body. */
  lemma LiteralRead(body: Bytes)
    ensures DecodeString([0x22] + body + [0x22]) == DecodeBody(body + [0x22])
  {
    var c := [0x22] + body + [0x22];
    assert TrimJson(c) == c && c[0] != NULL[0] && c[1..] == body + [0x22];
  }

  /** A body of one unit. */
  lemma OneUnit(body: Bytes)
    requires body != [] && body[0] != 0x22
    ensures DecodeUnit(body + [0x22]).None? ==> DecodeString([0x22] + body + [0x22]) == None
    ensures DecodeUnit(body + [0x22]).Some? && DecodeUnit(body + [0x22]).value.consumed == |body| ==>
              DecodeString([0x22] + body + [0x22]) == Some(DecodeUnit(body + [0x22]).value.text)
  {
    var t := body + [0x22];
    LiteralRead(body);
    assert t[|body|..] == [0x22] && DecodeBody([0x22]) == Some([]);
    if DecodeUnit(t).Some? {
      var text := DecodeUnit(t).value.text;
      assert text + [] == text;
    }
  }

  lemma OneUnitReads(body: Bytes, u: Unit)
    requires body != [] && body[0] != 0x22 && u.consumed == |body| && DecodeUnit(body + [0x22]) == Some(u)
    ensures DecodeString([0x22] + body + [0x22]) == Some(u.text)
  {
    OneUnit(body);
  }

  /** Escapes of one letter, with the solidus; no other letter but u is allowed. */
  lemma LettersRead(c: byte)
    ensures c == 0x22 || c == 0x5C || c == 0x2F ==> DecodeString([0x22, 0x5C, c, 0x22]) == Some([c])
    ensures c == Ascii("b")[0] ==> DecodeString([0x22, 0x5C, c, 0x22]) == Some([0x08])
    ensures c == Ascii("f")[0] ==> DecodeString([0x22, 0x5C, c, 0x22]) == Some([0x0C])
    ensures c == Ascii("n")[0] ==> DecodeString([0x22, 0x5C, c, 0x22]) == Some([0x0A])
    ensures c == Ascii("r")[0] ==> DecodeString([0x22, 0x5C, c, 0x22]) == Some([0x0D])
    ensures c == Ascii("t")[0] ==> DecodeString([0x22, 0x5C, c, 0x22]) == Some([0x09])
    ensures c !in [0x22, 0x5C, 0x2F, 0x62, 0x66, 0x6E, 0x72, 0x74] ==> DecodeString([0x22, 0x5C, c, 0x22]) == None
  {
    OneUnit([0x5C, c]);
    assert [0x22, 0x5C, c, 0x22] == [0x22] + [0x5C, c] + [0x22] && [0x5C, c, 0x22] == [0x5C, c] + [0x22];
  }

  /** A raw control byte is an error; other bytes below 0x80 stand for themselves. */
  lemma RawBytesRead(b: byte)
    requires b < 0x80 && b != 0x22 && b != 0x5C
    ensures DecodeString([0x22, b, 0x22]) == if b < 0x20 then None else Some([b])
  {
    OneUnit([b]);
    assert [0x22, b, 0x22] == [0x22] + [b] + [0x22] && ([b] + [0x22])[..1] == [b];
  }

  lemma PairUnit(hi: nat, lo: nat, t: Bytes)
    requires 0xD800 <= hi < 0xDC00 <= lo < 0xE000
    requires |t| >= 12 && t[..6] == UnicodeEscape(hi) && t[6..][..6] == UnicodeEscape(lo)
    ensures DecodeUnit(t) == Some(Unit(EncodeRune((hi - 0xD800) * 0x400 + (lo - 0xDC00) + 0x10000), 12))
  {
    forall i | 0 <= i < 6 ensures t[i] == UnicodeEscape(hi)[i] && t[6..][i] == UnicodeEscape(lo)[i] {
      assert t[i] == t[..6][i] && t[6..][i] == t[6..][..6][i];
    }
    CodeUnitRoundTrip(hi, t);
    CodeUnitRoundTrip(lo, t[6..]);
  }

  /** Surrogates in any other order are replaced one by one. */
  lemma UnpairedUnit(r: nat, q: nat, t: Bytes)
    requires 0xD800 <= r < 0xE000 && q < 0x10000 && !(r < 0xDC00 <= q < 0xE000)
    requires |t| >= 12 && t[..6] == UnicodeEscape(r) && t[6..][..6] == UnicodeEscape(q)
    ensures DecodeUnit(t) == Some(Unit([0xEF, 0xBF, 0xBD], 6))
  {
    forall i | 0 <= i < 6 ensures t[i] == UnicodeEscape(r)[i] && t[6..][i] == UnicodeEscape(q)[i] {
      assert t[i] == t[..6][i] && t[6..][i] == t[6..][..6][i];
    }
    CodeUnitRoundTrip(r, t);
    CodeUnitRoundTrip(q, t[6..]);
  }

  lemma TwoEscapes(x: Bytes, y: Bytes)
    requires |x| == |y| == 6
    ensures var t := x + y + [0x22]; |t| == 13 && t[..6] == x && t[6..][..6] == y && (x + y) + [0x22] == t
  {
  }

  /** A surrogate pair is read as the one code point it stands for. */
  lemma PairRead(hi: nat, lo: nat)
    requires 0xD800 <= hi < 0xDC00 <= lo < 0xE000
    ensures DecodeString([0x22] + (UnicodeEscape(hi) + UnicodeEscape(lo)) + [0x22])
            == Some(EncodeRune((hi - 0xD800) * 0x400 + (lo - 0xDC00) + 0x10000))
  {
    TwoEscapes(UnicodeEscape(hi), UnicodeEscape(lo));
    PairUnit(hi, lo, UnicodeEscape(hi) + UnicodeEscape(lo) + [0x22]);
    OneUnitReads(UnicodeEscape(hi) + UnicodeEscape(lo),
                 Unit(EncodeRune((hi - 0xD800) * 0x400 + (lo - 0xDC00) + 0x10000), 12));
  }

  /** A single escape is its code point, or U+FFFD for a surrogate without its partner. */
  lemma EscapeRead(r: nat)
    requires r < 0x10000
    ensures DecodeString([0x22] + UnicodeEscape(r) + [0x22])
            == Some(if 0xD800 <= r < 0xE000 then [0xEF, 0xBF, 0xBD] else EncodeRune(r))
  {
    var t := UnicodeEscape(r) + [0x22];
    CodeUnitRoundTrip(r, t);
    assert t[6..] == [0x22];
    OneUnit(UnicodeEscape(r));
  }

  /** The four digits of an escape, high ones first; capital digits read alike. */
  lemma EscapeDigits(r: nat)
    requires r < 0x10000
    ensures UnicodeEscape(r)[..2] == [0x5C] + Ascii("u") && |UnicodeEscape(r)| == 6
    ensures UnicodeEscape(r)[2] == Ascii("0123456789abcdef")[r / 0x1000]
    ensures UnicodeEscape(r)[3] == Ascii("0123456789abcdef")[r / 0x100 % 16]
    ensures UnicodeEscape(r)[4] == Ascii("0123456789abcdef")[r / 0x10 % 16]
    ensures UnicodeEscape(r)[5] == Ascii("0123456789abcdef")[r % 16]
  {
    HexDigitIs(r / 0x1000);
    HexDigitIs(r / 0x100 % 16);
    HexDigitIs(r / 16 % 16);
    HexDigitIs(r % 16);
  }

  lemma CapitalDigits(d: nat)
    requires 10 <= d < 16
    ensures HexValue(0x41 + (d - 10)) == HexValue(0x61 + (d - 10)) == Some(d)
  {
  }

  /** White space around a value does not matter. */
  lemma {:induction false} SpaceAround(c: Bytes, b: byte)
    requires b == 0x20 || b == 0x09 || b == 0x0A || b == 0x0D
    ensures DecodeString([b] + c) == DecodeString(c) == DecodeString(c + [b])
  {
    assert ([b] + c)[1..] == c;
    TrimBack(c, b);
  }

  lemma {:induction false} TrimBack(c: Bytes, b: byte)
    requires JsonSpace(b)
    ensures TrimJson(c + [b]) == TrimJson(c)
  {
    if c == [] {
      assert [] + [b] == [b] && [b][1..] == [];
    } else if JsonSpace(c[0]) {
      assert (c + [b])[1..] == c[1..] + [b];
      TrimBack(c[1..], b);
    } else {
      assert (c + [b])[..|c|] == c;
    }
  }

  /** Apart from null, which leaves the text empty, only what starts with a quote is a string. */
  lemma OnlyQuoted(c: Bytes)
    requires c != [] && c[0] !in [0x22, 0x20, 0x09, 0x0A, 0x0D] && c[|c| - 1] !in [0x20, 0x09, 0x0A, 0x0D]
    ensures DecodeString(c) == if c == Ascii("null") then Some([]) else None
    ensures DecodeString([]) == None
  {
    assert TrimJson(c) == c;
  }
}
