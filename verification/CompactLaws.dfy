// What compaction guarantees about one message: lengths, when the size gate can
// say no, and after how many applications it stops changing a content.
module CompactLaws {
  import opened ByteStrings
  import opened Decimals
  import opened Utf8
  import opened JsonString
  import opened Cleanup
  import opened Messages
  import opened Compact

  // The longest byte slice a 64-bit Go program can hold.
  const MAX_LEN: nat := 0x7FFF_FFFF_FFFF_FFFF

  // ----- lengths -----

  lemma MarkerLength(n: nat)
    ensures |Marker(n)| == 83 + |Decimal(n)|
  {
  }

  /** A truncated text has 1283 bytes and the digits of the omitted length, so it is always shorter. */
  lemma TruncatedLength(s: Bytes)
    requires |s| > TRUNCATE_THRESHOLD
    ensures |Truncate(s)| == 1283 + |Decimal(|s| - HEAD - TAIL)| < |s|
  {
    MarkerLength(|s| - HEAD - TAIL);
    DecimalShort(|s| - HEAD - TAIL);
  }

  lemma PartsOfSplice(h: Bytes, o: Bytes, d: Bytes, c: Bytes, t: Bytes)
    ensures var r := h + (o + d + c) + t;
            && h <= r
            && r[|h| + |o|..|r| - |c| - |t|] == d
            && r[|r| - |t|..] == t
  {
  }

  /** A truncated text begins with the first 800 bytes and ends with the last 400, and
      the number in its marker is the number of bytes left out between them. */
  lemma TruncatedParts(s: Bytes)
    requires |s| > TRUNCATE_THRESHOLD
    ensures |Truncate(s)| > 1283
    ensures var r := Truncate(s);
            && r[..800] == s[..800] && r[|r| - 400..] == s[|s| - 400..]
            && (forall b :: b in r[807..|r| - 476] ==> Digit(b))
    ensures var digits := Truncate(s)[807..|Truncate(s)| - 476];
            (forall i :: 0 <= i < |digits| ==> Digit(digits[i])) && DecimalValue(digits) == |s| - 1200
  {
    var n := |s| - HEAD - TAIL;
    TruncatedLength(s);
    DecimalRoundTrip(n);
    PartsOfSplice(s[..HEAD], MARKER_OPEN, Decimal(n), MARKER_CLOSE, s[|s| - TAIL..]);
  }

  // ----- cleaning a valid text -----

  lemma DropValid(s: Bytes, i: nat)
    requires Valid(s) && Rule(s, i)
    ensures Valid(Drop(s, i)) && |EncodeBody(Drop(s, i))| < |EncodeBody(s)|
  {
    var a, b := s[..i], s[i + 1..];
    var wb := [s[i]] + b;
    assert s == a + wb;
    ValidSplit(a, wb);
    assert RuneLen(wb) == 1 && wb[1..] == b;
    ValidConcat(a, b);
    EncodeConcat(a, wb);
    EncodeConcat(a, b);
  }

  lemma {:induction false} ReachesValid(s: Bytes, t: Bytes)
    requires Valid(s) && Reaches(s, t)
    ensures Valid(t)
    ensures s == t || |EncodeBody(t)| < |EncodeBody(s)|
    decreases |s|
  {
    if s != t {
      var u :| Via(s, u, t);
      var i: nat :| Rule(s, i) && u == Drop(s, i);
      DropValid(s, i);
      ReachesValid(u, t);
    }
  }

  /** Cleaning valid text keeps it valid, and any change shrinks its encoding. */
  lemma CleanValid(s: Bytes)
    requires Valid(s)
    ensures Valid(Clean(s))
    ensures Clean(s) == s || |EncodeBody(Clean(s))| < |EncodeBody(s)|
  {
    CleanReached(s);
    ReachesValid(s, Clean(s));
  }

  // ----- truncating a valid text -----

  lemma {:induction false} BodyLength(s: Bytes)
    ensures |s| <= |EncodeBody(s)| <= 6 * |s|
  {
    if s != [] {
      BodyLength(s[ChunkLen(s)..]);
    }
  }

  predicate Printable(s: Bytes) {
    forall i :: 0 <= i < |s| ==> 0x20 <= s[i] < 0x80
  }

  lemma AsciiPrintable(s: string)
    requires forall c :: c in s ==> ' ' <= c < 128 as char
    ensures Printable(Ascii(s))
  {
    assert forall i :: 0 <= i < |s| ==> s[i] in s;
  }

  lemma MarkerWords()
    ensures Printable(Ascii("... [")) && Printable(ELIDED) && Printable(NOT_RETAINED)
  {
    AsciiPrintable("... [");
    AsciiPrintable(" chars elided by proxy ");
    AsciiPrintable(" old tool output,");
    AsciiPrintable(" full version not retained");
    AsciiPrintable("] ...");
  }

  lemma MarkerValid(n: nat)
    ensures Valid(Marker(n))
  {
    MarkerWords();
    AsciiValid(MARKER_OPEN);
    AsciiValid(Decimal(n));
    AsciiValid(ELIDED);
    AsciiValid(NOT_RETAINED);
    AsciiValid(BLANK_LINE);
    assert RuneLen(EM_DASH) == 3 && EM_DASH[3..] == [] && Valid(EM_DASH);
    ValidConcat(ELIDED, EM_DASH);
    ValidConcat(ELIDED + EM_DASH, NOT_RETAINED);
    ValidConcat(ELIDED + EM_DASH + NOT_RETAINED, BLANK_LINE);
    ValidConcat(MARKER_OPEN, Decimal(n));
    ValidConcat(MARKER_OPEN + Decimal(n), MARKER_CLOSE);
  }

  lemma ValidBoundary(y: Bytes)
    requires Valid(y)
    ensures Boundary(y)
  {
  }

  /** At most three stray bytes between valid text and a character boundary. */
  lemma StrayBody(a: Bytes, d: Bytes, rest: Bytes)
    requires Valid(a) && |d| <= 3 && Boundary(rest)
    ensures |EncodeBody(a + d + rest)| <= |EncodeBody(a)| + 18 + |EncodeBody(rest)|
  {
    ConcatAssociates(a, d, rest);
    EncodeConcat(a, d + rest);
    EncodeConcat(d, rest);
    BodyLength(d);
  }

  /** The encoding of a head and a tail of valid text around a middle m, bounded at character boundaries. */
  lemma SplicedBody(a: Bytes, d: Bytes, m: Bytes, e: Bytes, z: Bytes)
    requires Valid(a) && |d| <= 3 && Valid(m) && m != [] && |e| <= 3 && Valid(z)
    ensures |EncodeBody((a + d) + m + (e + z))| <= |EncodeBody(a)| + |EncodeBody(m)| + |EncodeBody(z)| + 36
  {
    var rest := m + (e + z);
    ConcatAssociates(a + d, m, e + z);
    ConcatAssociates(m, e, z);
    ValidBoundary(m);
    ValidBoundary(z);
    assert rest[0] == m[0];
    StrayBody(a, d, rest);
    StrayBody(m, e, z);
  }

  lemma SplitBody(s: Bytes, k: nat, l: nat)
    requires k <= l <= |s| && Valid(s[..k]) && Valid(s[l..])
    ensures |EncodeBody(s)| >= |EncodeBody(s[..k])| + (l - k) + |EncodeBody(s[l..])|
  {
    var mid := s[k..l];
    assert s == s[..k] + (mid + s[l..]);
    EncodeConcat(s[..k], mid + s[l..]);
    ValidBoundary(s[l..]);
    EncodeConcat(mid, s[l..]);
    BodyLength(mid);
  }

  lemma MarkerBody(n: nat)
    ensures Valid(Marker(n)) && Marker(n) != []
    ensures n > 2800 ==> |EncodeBody(Marker(n))| + 36 < n && |Marker(n)| + 12 < n
  {
    MarkerValid(n);
    MarkerLength(n);
    DecimalShort(n);
    BodyLength(Marker(n));
  }

  lemma ShortMiddleAt(s: Bytes, h: nat, m: Bytes, t: nat, k: nat, l: nat)
    requires k <= h <= k + 3 && t <= l <= t + 3 && h <= t && l <= |s|
    requires Valid(s[..k]) && Valid(s[l..]) && Valid(m) && m != []
    requires |EncodeBody(m)| + 36 < t - h
    ensures |EncodeBody(s[..h] + m + s[t..])| < |EncodeBody(s)|
  {
    SplicedBody(s[..k], s[k..h], m, s[t..l], s[l..]);
    SplitAround(s, k, h);
    SplitAround(s[t..], 0, l - t);
    assert s[t..][..l - t] == s[t..l] && s[t..][l - t..] == s[l..];
    SplitBody(s, k, l);
  }

  lemma SplitAround(s: Bytes, k: nat, h: nat)
    requires k <= h <= |s|
    ensures s[..h] == s[..k] + s[k..h] && s == s[..h] + s[h..]
  {
  }

  lemma ShortMiddle(s: Bytes, h: nat, m: Bytes, t: nat)
    requires Valid(s) && h <= t <= |s| && Valid(m) && m != []
    requires |EncodeBody(m)| + 36 < t - h
    ensures |EncodeBody(s[..h] + m + s[t..])| < |EncodeBody(s)|
  {
    var k, _ := CutPoints(s, h);
    var _, l := CutPoints(s, t);
    ShortMiddleAt(s, h, m, t, k, l);
  }

  lemma CutEncoding(s: Bytes, m: Bytes)
    requires Valid(s) && |s| > TRUNCATE_THRESHOLD && Valid(m) && m != []
    requires |EncodeBody(m)| + 36 < |s| - HEAD - TAIL
    ensures |EncodeBody(s[..HEAD] + m + s[|s| - TAIL..])| < |EncodeBody(s)|
  {
    ShortMiddle(s, HEAD, m, |s| - TAIL);
  }

  /** Truncating valid text shrinks its encoding. */
  lemma TruncatedEncoding(s: Bytes)
    requires Valid(s) && |s| > TRUNCATE_THRESHOLD
    ensures |EncodeBody(Truncate(s))| < |EncodeBody(s)|
  {
    MarkerBody(|s| - HEAD - TAIL);
    CutEncoding(s, Marker(|s| - HEAD - TAIL));
  }

  /** On contents that json.Marshal would write, the size gate never says no. */
  lemma CanonicalCompaction(role: Bytes, s: Bytes)
    requires Valid(s)
    ensures CompactContent(role, EncodeString(s)) == EncodeString(CompactedText(role, s))
  {
    RoundTrip(s);
    SanitizeFixpoint(s);
    CleanValid(s);
    if Truncates(role, s) {
      TruncatedEncoding(Clean(s));
    }
  }

  // ----- the text a truncated content decodes to -----

  lemma SplicedDecodes(h: Bytes, m: Bytes, t: Bytes)
    requires Valid(m) && m != []
    ensures Sanitize(h + m + t) == Sanitize(h) + m + Sanitize(t)
  {
    ConcatAssociates(h, m, t);
    ValidBoundary(m);
    assert (m + t)[0] == m[0];
    SanitizeConcat(h, m + t);
    ValidConcat(m, t);
    ConcatAssociates(Sanitize(h), m, Sanitize(t));
  }

  lemma TruncatedDecodes(s: Bytes)
    requires |s| > TRUNCATE_THRESHOLD
    ensures Sanitize(Truncate(s)) == Sanitize(s[..HEAD]) + Marker(|s| - HEAD - TAIL) + Sanitize(s[|s| - TAIL..])
  {
    MarkerValid(|s| - HEAD - TAIL);
    SplicedDecodes(s[..HEAD], Marker(|s| - HEAD - TAIL), s[|s| - TAIL..]);
  }

  lemma TenToTheTwenty()
    ensures Pow10(20) == 100_000_000_000_000_000_000
  {
    assert Pow10(5) == 100_000 && Pow10(10) == 10_000_000_000 && Pow10(15) == 1_000_000_000_000_000;
  }

  /** A truncated text decodes to at most the threshold, so it is never truncated again. */
  lemma TruncatedStaysShort(s: Bytes)
    requires Valid(s) && TRUNCATE_THRESHOLD < |s| <= 3 * MAX_LEN
    ensures |Sanitize(Truncate(s))| <= 1315 <= TRUNCATE_THRESHOLD
  {
    var n := |s| - HEAD - TAIL;
    TruncatedDecodes(s);
    CutBefore(s, HEAD);
    CutAfter(s, |s| - TAIL);
    MarkerLength(n);
    TenToTheTwenty();
    DecimalDigits(n, 20);
  }

  // ----- when does a truncated text need a second cleaning? -----

  predicate Quiet(x: Bytes) {
    NoTrailing(x) && NoTriple(x)
  }

  lemma QuietIsIrreducible(x: Bytes)
    ensures Irreducible(x) <==> Quiet(x) && (x == [] || !White(x[|x| - 1]))
  {
    if !Quiet(x) {
      var i :| 0 <= i < |x| && (!NoTrailing(x) ==> i < |x| - 1 && Blank(x[i]) && x[i + 1] == NEWLINE)
               && (NoTrailing(x) ==> i < |x| - 2 && x[i] == x[i + 1] == x[i + 2] == NEWLINE);
      assert Rule(x, i);
    } else if x != [] && White(x[|x| - 1]) {
      assert Rule(x, |x| - 1);
    }
  }

  lemma QuietConcat(x: Bytes, y: Bytes)
    requires Quiet(x) && Quiet(y)
    requires x == [] || y == [] || !White(x[|x| - 1]) || y[0] != NEWLINE
    ensures Quiet(x + y)
  {
    var s := x + y;
    forall i | 0 <= i < |s| - 1 && Blank(s[i]) ensures s[i + 1] != NEWLINE {
      if i + 1 < |x| {
        assert x[i] == s[i];
      } else if i >= |x| {
        assert y[i - |x|] == s[i];
      }
    }
    forall i | 0 <= i < |s| - 2 && s[i] == NEWLINE && s[i + 1] == NEWLINE ensures s[i + 2] != NEWLINE {
      if i + 2 < |x| {
        assert x[i] == s[i];
      } else if i >= |x| {
        assert y[i - |x|] == s[i];
      }
    }
  }

  /** What replacing invalid bytes keeps of the white space of x. */
  ghost predicate SameShape(x: Bytes, y: Bytes) {
    && NewlineRun(y) == NewlineRun(x)
    && (x == [] <==> y == [])
    && (x != [] ==> y[0] == x[0] || (!White(x[0]) && !White(y[0])))
    && (x != [] ==> y[|y| - 1] == x[|x| - 1] || (!White(x[|x| - 1]) && !White(y[|y| - 1])))
  }

  lemma QuietPush(b: byte, r: Bytes)
    requires Quiet(r)
    requires Blank(b) && r != [] ==> r[0] != NEWLINE
    requires b == NEWLINE ==> NewlineRun(r) <= 1
    ensures Quiet([b] + r)
  {
    var s := [b] + r;
    assert s[1..] == r;
    forall i | 0 <= i < |s| - 1 && Blank(s[i]) ensures s[i + 1] != NEWLINE {
      assert i > 0 ==> s[i] == r[i - 1];
    }
    forall i | 0 <= i < |s| - 2 && s[i] == NEWLINE && s[i + 1] == NEWLINE ensures s[i + 2] != NEWLINE {
      if i == 0 {
        assert r[0] == NEWLINE && NewlineRun(r) == 1 && r[1] == s[2];
      } else {
        assert s[i] == r[i - 1];
      }
    }
  }

  lemma QuietTail(x: Bytes, n: nat)
    requires Quiet(x) && n <= |x|
    ensures Quiet(x[n..])
  {
    var r := x[n..];
    assert forall i :: 0 <= i < |r| ==> r[i] == x[n + i];
  }

  lemma LongRun(x: Bytes)
    ensures NewlineRun(x) > 2 ==> !NoTriple(x)
  {
    if NewlineRun(x) > 2 {
      assert x[0] == x[1] == x[2] == NEWLINE;
    }
  }

  /** Replacing invalid bytes moves no white space. */
  lemma {:induction false} SanitizeKeepsQuiet(x: Bytes)
    requires Quiet(x)
    ensures Quiet(Sanitize(x)) && SameShape(x, Sanitize(x))
  {
    if x != [] {
      var n := ChunkLen(x);
      var front := SanitizeChunk(x);
      QuietTail(x, n);
      LongRun(x);
      SanitizeKeepsQuiet(x[n..]);
      ShapeStep(x);
      if n == 1 && RuneLen(x) == 1 {
        assert front == [x[0]];
        QuietPush(x[0], Sanitize(x[1..]));
      } else {
        QuietConcat(front, Sanitize(x[n..]));
      }
    }
  }

  lemma ShapeStep(x: Bytes)
    requires x != [] && SameShape(x[ChunkLen(x)..], Sanitize(x[ChunkLen(x)..]))
    ensures SameShape(x, Sanitize(x))
    ensures RuneLen(x) != 1 ==> forall b :: b in SanitizeChunk(x) ==> !White(b)
  {
    ChunkStep(x);
    if RuneLen(x) == 1 {
      AsciiShape(x, Sanitize(x[1..]));
    } else {
      LoudChunk(x);
      LoudShape(x, ChunkLen(x), SanitizeChunk(x), Sanitize(x[ChunkLen(x)..]));
    }
  }

  lemma ChunkStep(x: Bytes)
    requires x != []
    ensures Sanitize(x) == SanitizeChunk(x) + Sanitize(x[ChunkLen(x)..])
    ensures RuneLen(x) == 1 ==> ChunkLen(x) == 1 && SanitizeChunk(x) == [x[0]]
  {
  }

  lemma AsciiShape(x: Bytes, r: Bytes)
    requires x != [] && SameShape(x[1..], r)
    ensures SameShape(x, [x[0]] + r)
  {
    assert ([x[0]] + r)[1..] == r;
  }

  lemma LoudChunk(x: Bytes)
    requires x != [] && RuneLen(x) != 1
    ensures SanitizeChunk(x) != []
    ensures forall b :: b in SanitizeChunk(x) ==> !White(b)
    ensures forall b :: b in x[..ChunkLen(x)] ==> !White(b)
  {
    assert forall i :: 0 <= i < |SanitizeChunk(x)| ==> SanitizeChunk(x)[i] >= 0x80;
    assert forall i :: 0 <= i < ChunkLen(x) ==> x[i] >= 0x80;
  }

  lemma LoudShape(x: Bytes, n: nat, front: Bytes, r: Bytes)
    requires 0 < n <= |x| && front != [] && SameShape(x[n..], r)
    requires forall b :: b in front ==> !White(b)
    requires forall b :: b in x[..n] ==> !White(b)
    ensures SameShape(x, front + r)
  {
    assert front[0] in front && front[|front| - 1] in front;
    assert x[0] == x[..n][0] && x[0] in x[..n];
    if x[n..] == [] {
      assert x[|x| - 1] == x[..n][n - 1] && x[n - 1] in x[..n];
    }
  }

  predicate NoNewline(x: Bytes) {
    forall i :: 0 <= i < |x| ==> x[i] != NEWLINE
  }

  /** A marker is quiet, and begins and ends with two newlines. */
  ghost predicate MarkerShape(m: Bytes) {
    && Quiet(m) && |m| >= 4
    && m[0] == m[1] == NEWLINE
    && m[|m| - 2] == m[|m| - 1] == NEWLINE
  }

  lemma FencedShape(mid: Bytes)
    requires NoNewline(mid) && mid != [] && !White(mid[|mid| - 1])
    ensures MarkerShape(BLANK_LINE + mid + BLANK_LINE)
  {
    QuietConcat(BLANK_LINE, mid);
    QuietConcat(BLANK_LINE + mid, BLANK_LINE);
  }

  lemma MarkerHasShape(n: nat)
    ensures MarkerShape(Marker(n))
  {
    MarkerWords();
    var a, b := Ascii("... [") + Decimal(n), ELIDED + EM_DASH + NOT_RETAINED;
    var mid := a + b;
    assert forall i :: 0 <= i < |Decimal(n)| ==> Decimal(n)[i] in Decimal(n);
    assert NoNewline(a) && NoNewline(b);
    var last := Ascii("] ...");
    assert mid[|mid| - 1] == NOT_RETAINED[|NOT_RETAINED| - 1] == last[4];
    assert Marker(n) == BLANK_LINE + mid + BLANK_LINE;
    FencedShape(mid);
  }

  /** Around a marker, only the two seams can make a rule applicable. */
  lemma SeamRules(h: Bytes, m: Bytes, t: Bytes)
    requires Quiet(h) && MarkerShape(m) && Quiet(t) && h != [] && t != []
    requires !White(t[|t| - 1])
    ensures Irreducible(h + m + t) <==> !White(h[|h| - 1]) && t[0] != NEWLINE
  {
    var s := h + m + t;
    assert s == h + (m + t);
    if White(h[|h| - 1]) {
      assert s[|h| - 1] == h[|h| - 1] && s[|h|] == m[0] && s[|h| + 1] == m[1];
      assert Rule(s, |h| - 1);
    } else if t[0] == NEWLINE {
      var i := |h| + |m| - 2;
      assert s[i] == m[|m| - 2] && s[i + 1] == m[|m| - 1] && s[i + 2] == t[0];
      assert Rule(s, i);
    } else {
      QuietConcat(h, m);
      QuietConcat(h + m, t);
      QuietIsIrreducible(s);
    }
  }

  /** The cut that truncation makes leaves a space, tab or newline in front of the
      marker, or a newline behind it. */
  predicate SeamWhite(s: Bytes)
    requires |s| > TRUNCATE_THRESHOLD
  {
    White(s[HEAD - 1]) || s[|s| - TAIL] == NEWLINE
  }

  lemma SeamsOfParts(h: Bytes, m: Bytes, t: Bytes)
    requires Quiet(h) && Quiet(t) && MarkerShape(m) && h != [] && t != [] && !White(t[|t| - 1])
    ensures Irreducible(Sanitize(h) + m + Sanitize(t)) <==> !White(h[|h| - 1]) && t[0] != NEWLINE
  {
    SanitizeKeepsQuiet(h);
    SanitizeKeepsQuiet(t);
    SeamRules(Sanitize(h), m, Sanitize(t));
  }

  lemma SeamsAround(s: Bytes, m: Bytes)
    requires Irreducible(s) && |s| > TRUNCATE_THRESHOLD && MarkerShape(m)
    ensures Irreducible(Sanitize(s[..HEAD]) + m + Sanitize(s[|s| - TAIL..])) <==> !SeamWhite(s)
  {
    var h, t := s[..HEAD], s[|s| - TAIL..];
    QuietIsIrreducible(s);
    QuietTail(s, |s| - TAIL);
    QuietFront(s, HEAD);
    assert h[|h| - 1] == s[HEAD - 1] && t[0] == s[|s| - TAIL] && t[|t| - 1] == s[|s| - 1];
    SeamsOfParts(h, m, t);
  }

  lemma SeamsOfSplice(s: Bytes, m: Bytes)
    requires Irreducible(s) && |s| > TRUNCATE_THRESHOLD && MarkerShape(m) && Valid(m)
    ensures Irreducible(Sanitize(s[..HEAD] + m + s[|s| - TAIL..])) <==> !SeamWhite(s)
  {
    SplicedDecodes(s[..HEAD], m, s[|s| - TAIL..]);
    SeamsAround(s, m);
  }

  lemma SeamsDecide(s: Bytes)
    requires Irreducible(s) && |s| > TRUNCATE_THRESHOLD
    ensures Irreducible(Sanitize(Truncate(s))) <==> !SeamWhite(s)
  {
    MarkerHasShape(|s| - HEAD - TAIL);
    MarkerValid(|s| - HEAD - TAIL);
    SeamsOfSplice(s, Marker(|s| - HEAD - TAIL));
  }

  lemma QuietFront(x: Bytes, n: nat)
    requires Quiet(x) && n <= |x|
    ensures Quiet(x[..n])
  {
  }

  // ----- main results -----

  lemma {:induction false} SanitizedBody(s: Bytes)
    ensures |EncodeBody(Sanitize(s))| <= |EncodeBody(s)|
  {
    if s != [] {
      var n, r := ChunkLen(s), Sanitize(s[ChunkLen(s)..]);
      SanitizedBody(s[n..]);
      assert Sanitize(s) == SanitizeChunk(s) + r;
      if RuneLen(s) == 0 {
        assert RuneLen(REPLACEMENT) == 3 && REPLACEMENT[..3] == REPLACEMENT && REPLACEMENT[3..] == [];
        assert Valid(REPLACEMENT) && EncodeBody(REPLACEMENT) == REPLACEMENT + EncodeBody([]);
        EncodeConcat(REPLACEMENT, r);
      } else {
        var c := s[..n];
        FirstChunk(s);
        assert c[n..] == [] && Valid(c);
        assert EncodeBody(c) == EncodeChunk(c) + EncodeBody(c[n..]);
        EncodeConcat(c, r);
      }
    }
  }

  /** What one application leaves behind: nothing changed, or a clean text, or a truncated one. */
  lemma AfterOne(role: Bytes, content: Bytes)
    requires CompactContent(role, content) != content
    ensures DecodeString(content).Some?
    ensures var text := DecodeString(content).value;
            && Valid(text) && |text| <= 3 * |content| && Valid(Clean(text)) && Irreducible(Clean(text))
            && CompactContent(role, content) == EncodeString(CompactedText(role, text))
  {
    DecodedIsValid(content);
    CleanValid(DecodeString(content).value);
    CleanIrreducible(DecodeString(content).value);
  }

  /** A canonical content whose text is clean and short is left alone. */
  lemma CleanIsFixed(role: Bytes, s: Bytes)
    requires Valid(s) && Irreducible(s) && !Truncates(role, s)
    ensures CompactContent(role, EncodeString(s)) == EncodeString(s)
  {
    CleanFixpoint(s);
    CanonicalCompaction(role, s);
  }

  /** A truncated content on its second application. */
  lemma SecondApplication(role: Bytes, s: Bytes)
    requires Valid(s) && Irreducible(s) && TRUNCATE_THRESHOLD < |s| <= 3 * MAX_LEN
    ensures CompactContent(role, EncodeString(Truncate(s))) ==
            if SeamWhite(s) then EncodeString(Clean(Sanitize(Truncate(s)))) else EncodeString(Truncate(s))
    ensures Valid(Clean(Sanitize(Truncate(s)))) && |Clean(Sanitize(Truncate(s)))| <= TRUNCATE_THRESHOLD
    ensures SeamWhite(s) ==> EncodeString(Clean(Sanitize(Truncate(s)))) != EncodeString(Truncate(s))
  {
    SeamsDecide(s);
    TruncatedStaysShort(s);
    ShortApplication(role, Truncate(s));
    CleanFixpoint(Sanitize(Truncate(s)));
  }

  /** A content json.Marshal wrote, whose text is short: it is cleaned, and any change shortens it. */
  lemma ShortApplication(role: Bytes, x: Bytes)
    requires |Sanitize(x)| <= TRUNCATE_THRESHOLD
    ensures var t := Sanitize(x);
            && CompactContent(role, EncodeString(x))
               == (if Clean(t) == t then EncodeString(x) else EncodeString(Clean(t)))
            && Valid(Clean(t)) && |Clean(t)| <= TRUNCATE_THRESHOLD
            && (Clean(t) != t ==> EncodeString(Clean(t)) != EncodeString(x))
  {
    var t := Sanitize(x);
    RoundTrip(x);
    SanitizeValid(x);
    SanitizedBody(x);
    CleanValid(t);
    CleanKeepsInk(t);
  }

  /** The content is a long tool output, its cut leaves white space at a seam, and the
      truncated text passes the size gate. */
  predicate WhiteCut(role: Bytes, content: Bytes) {
    DecodeString(content).Some? &&
    var text := DecodeString(content).value;
    && Truncates(role, text) && SeamWhite(Clean(text))
    && |EncodeString(Truncate(Clean(text)))| < |content|
  }

  lemma TruncationChanges(role: Bytes, content: Bytes)
    requires DecodeString(content).Some? && Truncates(role, DecodeString(content).value)
    ensures CompactContent(role, content) != content <==>
            |EncodeString(Truncate(Clean(DecodeString(content).value)))| < |content|
  {
    var text := DecodeString(content).value;
    TruncatedLength(Clean(text));
    CleanKeepsInk(text);
  }

  /** One application is enough except when it cuts at a white seam, and then it is not. */
  lemma OneApplication(role: Bytes, content: Bytes)
    requires |content| <= MAX_LEN
    ensures var once := CompactContent(role, content);
            CompactContent(role, once) == once <==> !WhiteCut(role, content)
  {
    if DecodeString(content).Some? && Truncates(role, DecodeString(content).value) {
      TruncationChanges(role, content);
    }
    var once := CompactContent(role, content);
    if once != content {
      AfterOne(role, content);
      var s := Clean(DecodeString(content).value);
      CleanKeepsInk(DecodeString(content).value);
      if Truncates(role, DecodeString(content).value) {
        SecondApplication(role, s);
      } else {
        CleanFixpoint(s);
        CleanIsFixed(role, s);
      }
    }
  }

  /** Two applications are always enough. */
  lemma TwoApplications(role: Bytes, content: Bytes)
    requires |content| <= MAX_LEN
    ensures var twice := CompactContent(role, CompactContent(role, content)); CompactContent(role, twice) == twice
  {
    OneApplication(role, content);
    var once := CompactContent(role, content);
    if CompactContent(role, once) != once {
      AfterOne(role, content);
      var s := Clean(DecodeString(content).value);
      CleanKeepsInk(DecodeString(content).value);
      SecondApplication(role, s);
      var t := Clean(Sanitize(Truncate(s)));
      CleanIrreducible(Sanitize(Truncate(s)));
      CleanFixpoint(t);
      CleanIsFixed(role, t);
    }
  }

  /** A clean tool output of 4100 bytes with a space where the head is cut. */
  const SEAM_TEXT: Bytes := seq(4100, i => if i == HEAD - 1 then SPACE else 0x78)

  /** So one application is not always enough. */
  lemma OneIsNotEnough()
    ensures var once := CompactContent(TOOL, EncodeString(SEAM_TEXT)); CompactContent(TOOL, once) != once
  {
    var s := SEAM_TEXT;
    assert |s| == 4100 && s[HEAD - 1] == SPACE;
    assert forall i: nat :: !Rule(s, i);
    AsciiValid(s);
    CleanFixpoint(s);
    CanonicalCompaction(TOOL, s);
    TruncatedLength(s);
    SecondApplication(TOOL, s);
  }
}
