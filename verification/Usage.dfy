// The cache signal of a response (internal/usage/usage.go) and the sliding window
// it is read from (cmd/thin/main.go:658-697).
module Usage {
  import opened ByteStrings
  import opened Decimals

  const OPENAI_KEY: Bytes := [QUOTE] + Ascii("cached_tokens") + [QUOTE, 0x3A]
  const ANTHROPIC_KEY: Bytes := [QUOTE] + Ascii("cache_read_input_tokens") + [QUOTE, 0x3A]

  const TWO_63: int := 0x8000_0000_0000_0000

  /** A 64-bit signed int, wrapping around. */
  function Wrap(n: int): (w: int)
    ensures -TWO_63 <= w < TWO_63
  {
    (n + TWO_63) % (2 * TWO_63) - TWO_63
  }

  predicate MatchesAt(body: Bytes, needle: Bytes, i: nat) {
    i + |needle| <= |body| && body[i..i + |needle|] == needle
  }

  /** bytes.LastIndex: the greatest index below or at n where needle occurs. */
  function LastIndexFrom(body: Bytes, needle: Bytes, n: nat): (r: Option<nat>)
    ensures r.Some? ==> r.value <= n && MatchesAt(body, needle, r.value)
    ensures forall i :: (if r.Some? then r.value else -1) < i <= n ==> !MatchesAt(body, needle, i)
  {
    if MatchesAt(body, needle, n) then Some(n)
    else if n == 0 then None
    else LastIndexFrom(body, needle, n - 1)
  }

  function LastIndex(body: Bytes, needle: Bytes): (r: Option<nat>)
    ensures r.Some? ==> MatchesAt(body, needle, r.value) && forall i :: r.value < i ==> !MatchesAt(body, needle, i)
    ensures r.None? ==> forall i :: 0 <= i ==> !MatchesAt(body, needle, i)
  {
    LastIndexFrom(body, needle, |body|)
  }

  predicate Space(b: byte) {
    b == SPACE || b == TAB || b == NEWLINE || b == RETURN
  }

  function SpaceRun(s: Bytes): (n: nat)
    ensures n <= |s|
    ensures forall i :: 0 <= i < n ==> Space(s[i])
    ensures n < |s| ==> !Space(s[n])
  {
    if s == [] || !Space(s[0]) then 0 else 1 + SpaceRun(s[1..])
  }

  function DigitRun(s: Bytes): (n: nat)
    ensures n <= |s|
    ensures forall i :: 0 <= i < n ==> Digit(s[i])
    ensures n < |s| ==> !Digit(s[n])
  {
    if s == [] || !Digit(s[0]) then 0 else 1 + DigitRun(s[1..])
  }

  /** The number after optional white space at the start of rest. */
  function NumberAt(rest: Bytes): Option<int> {
    var s := rest[SpaceRun(rest)..];
    if DigitRun(s) == 0 then None else Some(Wrap(DecimalValue(s[..DigitRun(s)])))
  }

  function Scan(body: Bytes, needle: Bytes): Option<int> {
    match LastIndex(body, needle)
    case None => None
    case Some(i) => NumberAt(body[i + |needle|..])
  }

  lemma WrapStep(n: int, d: int)
    ensures Wrap(Wrap(n) * 10 + d) == Wrap(n * 10 + d)
  {
    var q := (n + TWO_63) / (2 * TWO_63);
    assert Wrap(n) == n - q * (2 * TWO_63);
    WrapShift(n * 10 + d, 10 * q);
  }

  lemma WrapShift(n: int, q: int)
    ensures Wrap(n - q * (2 * TWO_63)) == Wrap(n)
  {
  }

  lemma {:induction false} SpaceRunIs(s: Bytes, n: nat)
    requires n <= |s| && (n < |s| ==> !Space(s[n]))
    requires forall k :: 0 <= k < n ==> Space(s[k])
    ensures SpaceRun(s) == n
  {
    if n > 0 {
      SpaceRunIs(s[1..], n - 1);
    }
  }

  lemma {:induction false} DigitRunIs(s: Bytes, n: nat)
    requires n <= |s| && (n < |s| ==> !Digit(s[n]))
    requires forall k :: 0 <= k < n ==> Digit(s[k])
    ensures DigitRun(s) == n
  {
    if n > 0 {
      DigitRunIs(s[1..], n - 1);
    }
  }

  lemma DigitsAfter(rest: Bytes, i: nat, j: nat)
    requires i <= j <= |rest| && (j < |rest| ==> !Digit(rest[j]))
    requires forall k :: i <= k < j ==> Digit(rest[k])
    ensures DigitRun(rest[i..]) == j - i
  {
    var s := rest[i..];
    assert forall k :: 0 <= k < j - i ==> s[k] == rest[i + k];
    assert j < |rest| ==> s[j - i] == rest[j];
    DigitRunIs(s, j - i);
  }

  lemma RunsOf(rest: Bytes, i: nat, j: nat)
    requires i <= j <= |rest|
    requires forall k :: 0 <= k < i ==> Space(rest[k])
    requires i < |rest| ==> !Space(rest[i])
    requires forall k :: i <= k < j ==> Digit(rest[k])
    requires j < |rest| ==> !Digit(rest[j])
    ensures SpaceRun(rest) == i && DigitRun(rest[i..]) == j - i && rest[i..][..j - i] == rest[i..j]
  {
    SpaceRunIs(rest, i);
    DigitsAfter(rest, i, j);
    NestedSlices(rest, i, j - i);
  }

  lemma NextDigit(rest: Bytes, start: nat, i: nat)
    requires start <= i < |rest|
    requires forall k :: start <= k <= i ==> Digit(rest[k])
    ensures Wrap(Wrap(DecimalValue(rest[start..i])) * 10 + (rest[i] as int - 0x30))
            == Wrap(DecimalValue(rest[start..i + 1]))
  {
    assert rest[start..i + 1][..i - start] == rest[start..i];
    WrapStep(DecimalValue(rest[start..i]), rest[i] as int - 0x30);
  }

  /** The part of the scan behind the key. */
  method ParseNumber(rest: Bytes) returns (n: int, ok: bool)
    ensures (if ok then Some(n) else None) == NumberAt(rest)
    ensures !ok ==> n == 0
  {
    var i := 0;
    while i < |rest| && (rest[i] == SPACE || rest[i] == TAB || rest[i] == NEWLINE || rest[i] == RETURN)
      invariant i <= |rest| && forall k :: 0 <= k < i ==> Space(rest[k])
    {
      i := i + 1;
    }
    ghost var start := i;
    n := 0;
    if i == |rest| || rest[i] < 0x30 || rest[i] > 0x39 {
      RunsOf(rest, i, i);
      return 0, false;
    }
    while i < |rest| && 0x30 <= rest[i] <= 0x39
      invariant start <= i <= |rest|
      invariant forall k :: start <= k < i ==> Digit(rest[k])
      invariant n == Wrap(DecimalValue(rest[start..i]))
      invariant i == start ==> i < |rest| && Digit(rest[i])
    {
      NextDigit(rest, start, i);
      n := Wrap(n * 10 + (rest[i] as int - 0x30));
      i := i + 1;
    }
    RunsOf(rest, start, i);
    ok := true;
  }

  method ScanIntAfter(body: Bytes, needle: Bytes) returns (n: int, ok: bool)
    ensures (if ok then Some(n) else None) == Scan(body, needle)
    ensures !ok ==> n == 0
  {
    var idx := LastIndex(body, needle);
    if idx.None? {
      return 0, false;
    }
    n, ok := ParseNumber(body[idx.value + |needle|..]);
  }

  function Extract(body: Bytes): Option<int> {
    if Scan(body, OPENAI_KEY).Some? then Scan(body, OPENAI_KEY) else Scan(body, ANTHROPIC_KEY)
  }

  method ExtractCacheHit(body: Bytes) returns (n: int, ok: bool)
    ensures (if ok then Some(n) else None) == Extract(body)
    ensures !ok ==> n == 0
  {
    n, ok := ScanIntAfter(body, OPENAI_KEY);
    if ok {
      return;
    }
    n, ok := ScanIntAfter(body, ANTHROPIC_KEY);
    if ok {
      return;
    }
    return 0, false;
  }

  // ----- decimal scan round trip -----

  lemma NumberBetween(rest: Bytes, i: nat, j: nat)
    requires i < j <= |rest|
    requires forall k :: 0 <= k < i ==> Space(rest[k])
    requires forall k :: i <= k < j ==> Digit(rest[k])
    requires j < |rest| ==> !Digit(rest[j])
    ensures forall k :: 0 <= k < j - i ==> Digit(rest[i..j][k])
    ensures NumberAt(rest) == Some(Wrap(DecimalValue(rest[i..j])))
  {
    RunsOf(rest, i, j);
  }

  lemma NumberReads(spaces: Bytes, digits: Bytes, rest: Bytes)
    requires forall k :: 0 <= k < |spaces| ==> Space(spaces[k])
    requires forall k :: 0 <= k < |digits| ==> Digit(digits[k])
    requires digits != []
    requires rest != [] ==> !Digit(rest[0])
    ensures NumberAt(spaces + digits + rest) == Some(Wrap(DecimalValue(digits)))
  {
    var tail := spaces + digits + rest;
    assert forall k :: 0 <= k < |spaces| ==> tail[k] == spaces[k];
    assert forall k :: |spaces| <= k < |spaces| + |digits| ==> tail[k] == digits[k - |spaces|];
    assert tail[|spaces|..|spaces| + |digits|] == digits;
    assert |spaces| + |digits| < |tail| ==> tail[|spaces| + |digits|] == rest[0];
    NumberBetween(tail, |spaces|, |spaces| + |digits|);
  }

  lemma ScanAt(body: Bytes, needle: Bytes, i: nat, rest: Bytes)
    requires LastIndex(body, needle) == Some(i) && body[i + |needle|..] == rest
    ensures Scan(body, needle) == NumberAt(rest)
  {
  }

  lemma WrapSmall(n: int)
    requires -TWO_63 <= n < TWO_63
    ensures Wrap(n) == n
  {
  }

  lemma DecimalReads(spaces: Bytes, n: nat, rest: Bytes)
    requires n < TWO_63
    requires forall k :: 0 <= k < |spaces| ==> Space(spaces[k])
    requires rest != [] ==> !Digit(rest[0])
    ensures NumberAt(spaces + Decimal(n) + rest) == Some(n)
  {
    DecimalRoundTrip(n);
    var d := Decimal(n);
    NumberReads(spaces, d, rest);
    WrapSmall(n);
  }

  /** Behind the last key, white space and the decimal form of n up to a non-digit or
      the end read as n, for every n that fits a 64-bit int. */
  lemma ScanReadsDecimal(body: Bytes, needle: Bytes, i: nat, spaces: Bytes, n: nat, rest: Bytes)
    requires LastIndex(body, needle) == Some(i) && body[i + |needle|..] == spaces + Decimal(n) + rest
    requires n < TWO_63
    requires forall k :: 0 <= k < |spaces| ==> Space(spaces[k])
    requires rest != [] ==> !Digit(rest[0])
    ensures Scan(body, needle) == Some(n)
  {
    DecimalReads(spaces, n, rest);
    ScanAt(body, needle, i, spaces + Decimal(n) + rest);
  }

  // ----- the signal in literal bytes -----

  /** The key occurs at i and nowhere after. */
  predicate LastAt(body: Bytes, key: Bytes, i: nat) {
    && i <= |body| && key <= body[i..]
    && forall k :: i < k <= |body| ==> !(key <= body[k..])
  }

  predicate Lacks(body: Bytes, key: Bytes) {
    forall k :: 0 <= k <= |body| ==> !(key <= body[k..])
  }

  lemma MatchIsPrefix(body: Bytes, key: Bytes, k: nat)
    ensures MatchesAt(body, key, k) <==> k <= |body| && key <= body[k..]
  {
    if k + |key| <= |body| {
      assert body[k..][..|key|] == body[k..k + |key|];
    }
  }

  lemma LastAtMeans(body: Bytes, key: Bytes, i: nat)
    requires LastAt(body, key, i)
    ensures LastIndex(body, key) == Some(i)
  {
    MatchIsPrefix(body, key, i);
    forall k | i < k ensures !MatchesAt(body, key, k) {
      MatchIsPrefix(body, key, k);
    }
  }

  lemma LacksMeans(body: Bytes, key: Bytes)
    ensures Lacks(body, key) <==> LastIndex(body, key).None?
  {
    forall k: nat ensures MatchesAt(body, key, k) <==> k <= |body| && key <= body[k..] {
      MatchIsPrefix(body, key, k);
    }
  }

  /** A number behind the last OpenAI key is the signal, whatever else the body holds. */
  lemma OpenAISignal(body: Bytes, i: nat, spaces: Bytes, n: nat, rest: Bytes)
    requires var key := [0x22] + Ascii("cached_tokens") + [0x22, 0x3A];
             LastAt(body, key, i) && body[i + |key|..] == spaces + Decimal(n) + rest
    requires forall k :: 0 <= k < |spaces| ==> spaces[k] in [0x20, 0x09, 0x0A, 0x0D]
    requires n < 0x8000_0000_0000_0000 && (rest != [] ==> !(0x30 <= rest[0] <= 0x39))
    ensures Extract(body) == Some(n)
  {
    LastAtMeans(body, OPENAI_KEY, i);
    ScanReadsDecimal(body, OPENAI_KEY, i, spaces, n, rest);
  }

  /** Without the OpenAI key it is the number behind the last Anthropic key. */
  lemma AnthropicSignal(body: Bytes, i: nat, spaces: Bytes, n: nat, rest: Bytes)
    requires Lacks(body, [0x22] + Ascii("cached_tokens") + [0x22, 0x3A])
    requires var key := [0x22] + Ascii("cache_read_input_tokens") + [0x22, 0x3A];
             LastAt(body, key, i) && body[i + |key|..] == spaces + Decimal(n) + rest
    requires forall k :: 0 <= k < |spaces| ==> spaces[k] in [0x20, 0x09, 0x0A, 0x0D]
    requires n < 0x8000_0000_0000_0000 && (rest != [] ==> !(0x30 <= rest[0] <= 0x39))
    ensures Extract(body) == Some(n)
  {
    LacksMeans(body, OPENAI_KEY);
    LastAtMeans(body, ANTHROPIC_KEY, i);
    ScanReadsDecimal(body, ANTHROPIC_KEY, i, spaces, n, rest);
  }

  /** Behind a key, white space and then no digit is no number. */
  lemma NoNumber(body: Bytes, key: Bytes, i: nat, spaces: Bytes, rest: Bytes)
    requires LastAt(body, key, i) && body[i + |key|..] == spaces + rest
    requires forall k :: 0 <= k < |spaces| ==> spaces[k] in [0x20, 0x09, 0x0A, 0x0D]
    requires rest != [] ==> rest[0] !in [0x20, 0x09, 0x0A, 0x0D] && !(0x30 <= rest[0] <= 0x39)
    ensures Scan(body, key) == None
  {
    var s := spaces + rest;
    LastAtMeans(body, key, i);
    assert forall k :: 0 <= k < |spaces| ==> s[k] == spaces[k];
    assert rest != [] ==> s[|spaces|] == rest[0];
    RunsOf(s, |spaces|, |spaces|);
    ScanAt(body, key, i, s);
  }

  /** No key, no signal. */
  lemma NoSignal(body: Bytes)
    requires Lacks(body, [0x22] + Ascii("cached_tokens") + [0x22, 0x3A])
    requires Lacks(body, [0x22] + Ascii("cache_read_input_tokens") + [0x22, 0x3A])
    ensures Extract(body) == None
  {
    LacksMeans(body, OPENAI_KEY);
    LacksMeans(body, ANTHROPIC_KEY);
  }

  // ----- scanning a window -----

  /** The last n bytes of s, or all of it. */
  function Last(s: Bytes, n: nat): Bytes {
    if |s| <= n then s else s[|s| - n..]
  }

  lemma WindowMatches(s: Bytes, n: nat, needle: Bytes, i: nat)
    ensures MatchesAt(Last(s, n), needle, i) <==> MatchesAt(s, needle, i + |s| - |Last(s, n)|)
  {
    var o := |s| - |Last(s, n)|;
    if i + |needle| <= |Last(s, n)| {
      assert Last(s, n)[i..i + |needle|] == s[o + i..o + i + |needle|];
    }
  }

  /** The key's last occurrence in s starts inside the window of the last n bytes, or there is none. */
  predicate Visible(s: Bytes, n: nat, needle: Bytes) {
    LastIndex(s, needle).Some? ==> LastIndex(s, needle).value >= |s| - |Last(s, n)|
  }

  lemma WindowLastIndex(s: Bytes, n: nat, needle: Bytes)
    ensures var (i, o) := (LastIndex(s, needle), |s| - |Last(s, n)|);
            LastIndex(Last(s, n), needle) == if i.Some? && i.value >= o then Some(i.value - o) else None
  {
    var w, o := Last(s, n), |s| - |Last(s, n)|;
    if LastIndex(w, needle).Some? {
      var i := LastIndex(w, needle).value;
      WindowMatches(s, n, needle, i);
      forall j: nat | i + o < j ensures !MatchesAt(s, needle, j) {
        WindowMatches(s, n, needle, j - o);
      }
    } else if LastIndex(s, needle).Some? && LastIndex(s, needle).value >= o {
      WindowMatches(s, n, needle, LastIndex(s, needle).value - o);
    }
  }

  lemma WindowRest(s: Bytes, n: nat, k: nat)
    requires |s| - |Last(s, n)| <= k <= |s|
    ensures Last(s, n)[k - (|s| - |Last(s, n)|)..] == s[k..]
  {
  }

  /** Scanning the window agrees with scanning the whole body for a visible key, and
      otherwise reports no signal. */
  lemma WindowScan(s: Bytes, n: nat, needle: Bytes)
    ensures Visible(s, n, needle) ==> Scan(Last(s, n), needle) == Scan(s, needle)
    ensures !Visible(s, n, needle) ==> Scan(Last(s, n), needle) == None
  {
    var w := Last(s, n);
    WindowLastIndex(s, n, needle);
    if LastIndex(w, needle).Some? {
      var i := LastIndex(s, needle).value;
      WindowRest(s, n, i + |needle|);
      ScanAt(s, needle, i, s[i + |needle|..]);
      ScanAt(w, needle, i - (|s| - |w|), s[i + |needle|..]);
    }
  }

  /** The key whose number the whole body reports is visible in the window. */
  predicate SignalVisible(s: Bytes, n: nat) {
    if Scan(s, OPENAI_KEY).Some? then Visible(s, n, OPENAI_KEY)
    else Scan(s, ANTHROPIC_KEY).Some? ==> Visible(s, n, ANTHROPIC_KEY)
  }

  /** What the window reports for any body: the first visible number, which is the whole
      body's signal whenever that signal is visible. */
  lemma WindowExtract(s: Bytes, n: nat)
    ensures Extract(Last(s, n)) ==
            if Scan(s, OPENAI_KEY).Some? && Visible(s, n, OPENAI_KEY) then Scan(s, OPENAI_KEY)
            else if Visible(s, n, ANTHROPIC_KEY) then Scan(s, ANTHROPIC_KEY)
            else None
    ensures SignalVisible(s, n) ==> Extract(Last(s, n)) == Extract(s)
    ensures Extract(Last(s, n)).Some? && !SignalVisible(s, n) ==> Extract(Last(s, n)) == Scan(s, ANTHROPIC_KEY)
  {
    WindowScan(s, n, OPENAI_KEY);
    WindowScan(s, n, ANTHROPIC_KEY);
  }

  /** Bytes in front of the last occurrence, earlier occurrences included, never matter. */
  lemma EarlierBytesIrrelevant(front: Bytes, body: Bytes, needle: Bytes)
    requires LastIndex(body, needle).Some?
    ensures Scan(front + body, needle) == Scan(body, needle)
  {
    var s := front + body;
    assert Last(s, |body|) == body;
    WindowLastIndex(s, |body|, needle);
    WindowMatches(s, |body|, needle, LastIndex(body, needle).value);
    WindowScan(s, |body|, needle);
  }
}
