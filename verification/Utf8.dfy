// UTF-8 as section 4 of RFC 3629 defines it, and the replacement of invalid
// bytes by U+FFFD that Go's decoders perform.
module Utf8 {
  import opened ByteStrings

  const REPLACEMENT: Bytes := [0xEF, 0xBF, 0xBD]

  predicate Continuation(b: byte) {
    0x80 <= b <= 0xBF
  }

  /** Length of the character encoded at the start of s, 0 when those bytes are not valid UTF-8. */
  function RuneLen(s: Bytes): (n: nat)
    requires s != []
    ensures n <= |s| && n <= 4
    ensures s[0] < 0x80 <==> n == 1
    ensures forall i :: 0 < i < n ==> Continuation(s[i])
    ensures Continuation(s[0]) ==> n == 0
  {
    var b := s[0];
    if b < 0x80 then 1
    else if 0xC2 <= b <= 0xDF then
      if |s| >= 2 && Continuation(s[1]) then 2 else 0
    else if 0xE0 <= b <= 0xEF then
      if |s| >= 3 && SecondByte(b, s[1]) && Continuation(s[2]) then 3 else 0
    else if 0xF0 <= b <= 0xF4 then
      if |s| >= 4 && SecondByte(b, s[1]) && Continuation(s[2]) && Continuation(s[3]) then 4 else 0
    else 0
  }

  /** The second byte of a three or four byte character: no overlong form, no surrogate, nothing above U+10FFFF. */
  predicate SecondByte(lead: byte, b: byte) {
    && Continuation(b)
    && (lead == 0xE0 ==> b >= 0xA0)
    && (lead == 0xED ==> b <= 0x9F)
    && (lead == 0xF0 ==> b >= 0x90)
    && (lead == 0xF4 ==> b <= 0x8F)
  }

  predicate Valid(s: Bytes) {
    s == [] || (RuneLen(s) > 0 && Valid(s[RuneLen(s)..]))
  }

  /** s with every byte that starts no valid character replaced by U+FFFD. */
  function Sanitize(s: Bytes): Bytes {
    if s == [] then []
    else if RuneLen(s) == 0 then REPLACEMENT + Sanitize(s[1..])
    else s[..RuneLen(s)] + Sanitize(s[RuneLen(s)..])
  }

  /** No character of x can run on into y. */
  predicate Boundary(y: Bytes) {
    y == [] || !Continuation(y[0])
  }

  /** The character at the start of x + y is the one at the start of x. */
  lemma RuneLenOfConcat(x: Bytes, y: Bytes)
    requires x != [] && (RuneLen(x) > 0 || Boundary(y))
    ensures RuneLen(x + y) == RuneLen(x)
  {
    var s := x + y;
    assert forall i :: 0 <= i < |x| ==> s[i] == x[i];
    assert |x| < |s| ==> s[|x|] == y[0];
  }

  lemma {:induction false} ValidConcat(x: Bytes, y: Bytes)
    requires Valid(x)
    ensures Valid(x + y) <==> Valid(y)
    ensures Sanitize(x + y) == x + Sanitize(y)
  {
    if x == [] {
      assert x + y == y;
    } else {
      var n := RuneLen(x);
      RuneLenOfConcat(x, y);
      SlicesOfConcat(x, y, n);
      ValidConcat(x[n..], y);
      ConcatAssociates(x[..n], x[n..], Sanitize(y));
    }
  }

  /** Decoding splits wherever the right part does not start with a continuation byte. */
  lemma {:induction false} SanitizeConcat(x: Bytes, y: Bytes)
    requires Boundary(y)
    ensures Sanitize(x + y) == Sanitize(x) + Sanitize(y)
  {
    if x == [] {
      assert x + y == y;
    } else {
      RuneLenOfConcat(x, y);
      var n := if RuneLen(x) == 0 then 1 else RuneLen(x);
      var front := if RuneLen(x) == 0 then REPLACEMENT else x[..n];
      SlicesOfConcat(x, y, n);
      SanitizeConcat(x[n..], y);
      assert Sanitize(x + y) == front + (Sanitize(x[n..]) + Sanitize(y));
      ConcatAssociates(front, Sanitize(x[n..]), Sanitize(y));
    }
  }

  lemma {:induction false} ValidSplit(x: Bytes, y: Bytes)
    requires Valid(x + y) && Boundary(y)
    ensures Valid(x) && Valid(y)
  {
    if x == [] {
      assert x + y == y;
    } else {
      RuneLenOfConcat(x, y);
      var n := RuneLen(x);
      assert (x + y)[n..] == x[n..] + y;
      ValidSplit(x[n..], y);
    }
  }

  lemma {:induction false} SanitizeLength(s: Bytes)
    ensures |s| <= |Sanitize(s)| <= 3 * |s|
  {
    if s != [] {
      SanitizeLength(s[if RuneLen(s) == 0 then 1 else RuneLen(s)..]);
    }
  }

  /** Decoding always yields valid UTF-8. */
  lemma {:induction false} SanitizeValid(s: Bytes)
    ensures Valid(Sanitize(s))
  {
    if s != [] {
      var n := RuneLen(s);
      if n == 0 {
        SanitizeValid(s[1..]);
        assert RuneLen(REPLACEMENT) == 3 && REPLACEMENT[3..] == [] && Valid(REPLACEMENT);
        ValidConcat(REPLACEMENT, Sanitize(s[1..]));
      } else {
        SanitizeValid(s[n..]);
        assert RuneLen(s[..n]) == n && s[..n][n..] == [] && Valid(s[..n]);
        ValidConcat(s[..n], Sanitize(s[n..]));
      }
    }
  }

  /** Decoding leaves a text alone exactly when it is valid UTF-8. */
  lemma SanitizeFixpoint(s: Bytes)
    ensures Valid(s) <==> Sanitize(s) == s
  {
    SanitizeValid(s);
    if Valid(s) {
      ValidConcat(s, []);
      assert s + [] == s;
    }
  }

  /** The first character of valid text, and what follows it. */
  lemma FirstCharacter(s: Bytes) returns (m: nat)
    requires Valid(s) && s != []
    ensures 0 < m <= 4 && m <= |s|
    ensures Valid(s[..m]) && Valid(s[m..])
  {
    m := RuneLen(s);
    assert RuneLen(s[..m]) == m;
    assert s[..m][m..] == [];
  }

  /** k and l are character boundaries of s around index n, at most three bytes away on either side. */
  predicate Around(s: Bytes, n: nat, k: nat, l: nat) {
    && k <= n <= k + 3 && n <= l <= n + 3 && l <= |s|
    && Valid(s[..k]) && Valid(s[l..])
  }

  lemma AroundStart(s: Bytes)
    requires Valid(s)
    ensures Around(s, 0, 0, 0)
  {
    assert s[0..] == s && s[..0] == [];
  }

  lemma AroundFirst(s: Bytes, n: nat, m: nat)
    requires 0 < n < m <= 4 && m <= |s| && Valid(s[m..])
    ensures Around(s, n, 0, m)
  {
    assert s[..0] == [];
  }

  lemma AroundDeeper(s: Bytes, m: nat, n: nat, k: nat, l: nat)
    requires m <= n && m <= |s| && Valid(s[..m]) && Around(s[m..], n - m, k, l)
    ensures Around(s, n, m + k, m + l)
  {
    NestedSlices(s, m, k);
    NestedSlices(s, m, l);
    ValidConcat(s[..m], s[m..][..k]);
  }

  /** Valid text has such boundaries around every index. */
  lemma {:induction false} CutPoints(s: Bytes, n: nat) returns (k: nat, l: nat)
    requires Valid(s) && n <= |s|
    ensures Around(s, n, k, l)
    decreases |s|, 1
  {
    if n == 0 {
      k, l := 0, 0;
      AroundStart(s);
    } else {
      var m := FirstCharacter(s);
      if n < m {
        k, l := 0, m;
        AroundFirst(s, n, m);
      } else {
        k, l := CutBehind(s, n, m);
      }
    }
  }

  /** Around an index behind the first m bytes. */
  lemma {:induction false} CutBehind(s: Bytes, n: nat, m: nat) returns (k: nat, l: nat)
    requires 0 < m <= n <= |s| && Valid(s[..m]) && Valid(s[m..])
    ensures Around(s, n, k, l)
    decreases |s|, 0
  {
    var k', l' := CutPoints(s[m..], n - m);
    k, l := m + k', m + l';
    AroundDeeper(s, m, n, k', l');
  }

  /** Valid text cut in front of index n decodes to at most six bytes more than it has. */
  lemma CutBefore(s: Bytes, n: nat)
    requires Valid(s) && n <= |s|
    ensures |Sanitize(s[..n])| <= n + 6
  {
    var k, l := CutPoints(s, n);
    assert s[..n] == s[..k] + s[k..n];
    ValidConcat(s[..k], s[k..n]);
    SanitizeLength(s[k..n]);
  }

  /** So does valid text cut at index n. */
  lemma CutAfter(s: Bytes, n: nat)
    requires Valid(s) && n <= |s|
    ensures |Sanitize(s[n..])| <= |s| - n + 6
  {
    var k, l := CutPoints(s, n);
    assert s[n..] == s[n..l] + s[l..];
    SanitizeConcat(s[n..l], s[l..]);
    SanitizeLength(s[n..l]);
    SanitizeFixpoint(s[l..]);
  }

  /** Bytes below 0x80 are characters by themselves. */
  lemma {:induction false} AsciiValid(s: Bytes)
    requires forall b :: b in s ==> b < 0x80
    ensures Valid(s)
  {
    if s != [] {
      assert s[0] in s;
      assert forall b :: b in s[1..] ==> b in s;
      AsciiValid(s[1..]);
    }
  }

  /** What replacing does at the start of a text. */
  lemma SanitizeStep(s: Bytes)
    requires s != []
    ensures RuneLen(s) == 0 ==> Sanitize(s) == [0xEF, 0xBF, 0xBD] + Sanitize(s[1..])
    ensures RuneLen(s) > 0 ==> Sanitize(s) == s[..RuneLen(s)] + Sanitize(s[RuneLen(s)..])
  {
  }
}
