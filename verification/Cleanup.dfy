// The whitespace cleanup shared by both compaction passes
// (internal/pipeline/compact_history.go:84-86, internal/anthropic/compact_history.go:152-156):
// the two regular expressions as leftmost, greedy scanners, the final trim, and
// the rewriting system whose unique normal form the three passes compute.
module Cleanup {
  import opened ByteStrings

  // ----- the code -----

  predicate Blank(b: byte) {
    b == SPACE || b == TAB
  }

  predicate White(b: byte) {
    Blank(b) || b == NEWLINE
  }

  /** Length of the longest prefix of s made of spaces and tabs. */
  function BlankRun(s: Bytes): (n: nat)
    ensures n <= |s|
    ensures forall i :: 0 <= i < n ==> Blank(s[i])
    ensures n < |s| ==> !Blank(s[n])
  {
    if s == [] || !Blank(s[0]) then 0 else 1 + BlankRun(s[1..])
  }

  /** Length of the longest prefix of s made of newlines. */
  function NewlineRun(s: Bytes): (n: nat)
    ensures n <= |s|
    ensures forall i :: 0 <= i < n ==> s[i] == NEWLINE
    ensures n < |s| ==> s[n] != NEWLINE
  {
    if s == [] || s[0] != NEWLINE then 0 else 1 + NewlineRun(s[1..])
  }

  /** Length of the match of `[ \t]+\n` at the start of s, 0 when there is none. */
  function TrailingMatch(s: Bytes): (n: nat)
    ensures n <= |s|
  {
    var k := BlankRun(s);
    if 0 < k < |s| && s[k] == NEWLINE then k + 1 else 0
  }

  /** trailingWS.ReplaceAllString(s, "\n") */
  function ReplaceTrailing(s: Bytes): Bytes {
    if s == [] then []
    else if TrailingMatch(s) > 0 then [NEWLINE] + ReplaceTrailing(s[TrailingMatch(s)..])
    else [s[0]] + ReplaceTrailing(s[1..])
  }

  /** blankLines.ReplaceAllString(s, "\n\n") */
  function ReplaceBlankLines(s: Bytes): Bytes {
    if s == [] then []
    else if NewlineRun(s) >= 3 then [NEWLINE, NEWLINE] + ReplaceBlankLines(s[NewlineRun(s)..])
    else [s[0]] + ReplaceBlankLines(s[1..])
  }

  /** strings.TrimRight(s, " \t\n") */
  function TrimRight(s: Bytes): Bytes {
    if s != [] && White(s[|s| - 1]) then TrimRight(s[..|s| - 1]) else s
  }

  function Clean(s: Bytes): Bytes {
    TrimRight(ReplaceBlankLines(ReplaceTrailing(s)))
  }

  // ----- the rewriting system -----

  /** The part of s dropped by a rule at position i is the single byte s[i]. */
  predicate Rule(s: Bytes, i: nat) {
    && i < |s|
    && ( || (i + 1 < |s| && Blank(s[i]) && s[i + 1] == NEWLINE)
         || (i + 2 < |s| && s[i] == NEWLINE && s[i + 1] == NEWLINE && s[i + 2] == NEWLINE)
         || (i + 1 == |s| && White(s[i])))
  }

  function Drop(s: Bytes, i: nat): Bytes
    requires i < |s|
  {
    s[..i] + s[i + 1..]
  }

  /** One use, anywhere in s, of one of the three rules. */
  ghost predicate Rewrites(s: Bytes, t: Bytes) {
    exists i: nat :: Rule(s, i) && t == Drop(s, i)
  }

  /** s rewrites to t in finitely many uses of the rules; each use drops one byte. */
  ghost predicate Reaches(s: Bytes, t: Bytes)
    decreases |s|, 1
  {
    s == t || exists u :: Via(s, u, t)
  }

  ghost predicate Via(s: Bytes, u: Bytes, t: Bytes)
    decreases |s|, 0
  {
    Rewrites(s, u) && |u| < |s| && Reaches(u, t)
  }

  ghost predicate Irreducible(s: Bytes) {
    forall i: nat :: !Rule(s, i)
  }

  /** A space or tab in front of a newline goes. */
  ghost predicate DropsBlank(s: Bytes, t: Bytes) {
    exists x: Bytes, y: Bytes, b: byte :: (b == 0x20 || b == 0x09) && s == x + [b, 0x0A] + y && t == x + [0x0A] + y
  }

  /** Three newlines become two. */
  ghost predicate DropsNewline(s: Bytes, t: Bytes) {
    exists x: Bytes, y: Bytes :: s == x + [0x0A, 0x0A, 0x0A] + y && t == x + [0x0A, 0x0A] + y
  }

  /** A final space, tab or newline goes. */
  ghost predicate DropsFinal(s: Bytes, t: Bytes) {
    exists b: byte :: (b == 0x20 || b == 0x09 || b == 0x0A) && s == t + [b]
  }

  lemma RuleDrops(s: Bytes, i: nat)
    requires Rule(s, i)
    ensures DropsBlank(s, Drop(s, i)) || DropsNewline(s, Drop(s, i)) || DropsFinal(s, Drop(s, i))
  {
    var t := Drop(s, i);
    if i + 1 < |s| && Blank(s[i]) && s[i + 1] == NEWLINE {
      assert s == s[..i] + [s[i], 0x0A] + s[i + 2..] && t == s[..i] + [0x0A] + s[i + 2..];
    } else if i + 2 < |s| && s[i] == s[i + 1] == s[i + 2] == NEWLINE {
      assert s == s[..i] + [0x0A, 0x0A, 0x0A] + s[i + 3..] && t == s[..i] + [0x0A, 0x0A] + s[i + 3..];
    } else {
      assert s == t + [s[i]];
    }
  }

  lemma BlankIsRule(x: Bytes, y: Bytes, b: byte)
    requires b == 0x20 || b == 0x09
    ensures var s := x + [b, 0x0A] + y; Rule(s, |x|) && Drop(s, |x|) == x + [0x0A] + y
  {
  }

  lemma NewlineIsRule(x: Bytes, y: Bytes)
    ensures var s := x + [0x0A, 0x0A, 0x0A] + y; Rule(s, |x|) && Drop(s, |x|) == x + [0x0A, 0x0A] + y
  {
  }

  lemma FinalIsRule(t: Bytes, b: byte)
    requires b == 0x20 || b == 0x09 || b == 0x0A
    ensures var s := t + [b]; Rule(s, |t|) && Drop(s, |t|) == t
  {
  }

  /** The rules are the three of the program's patterns, in literal bytes. */
  lemma RewritesExactly(s: Bytes, t: Bytes)
    ensures Rewrites(s, t) <==> DropsBlank(s, t) || DropsNewline(s, t) || DropsFinal(s, t)
  {
    if i: nat :| Rule(s, i) && t == Drop(s, i) {
      RuleDrops(s, i);
    }
    if DropsBlank(s, t) {
      var x: Bytes, y: Bytes, b: byte :| (b == 0x20 || b == 0x09) && s == x + [b, 0x0A] + y && t == x + [0x0A] + y;
      BlankIsRule(x, y, b);
    } else if DropsNewline(s, t) {
      var x: Bytes, y: Bytes :| s == x + [0x0A, 0x0A, 0x0A] + y && t == x + [0x0A, 0x0A] + y;
      NewlineIsRule(x, y);
    } else if DropsFinal(s, t) {
      var b: byte :| (b == 0x20 || b == 0x09 || b == 0x0A) && s == t + [b];
      FinalIsRule(t, b);
    }
  }

  /** A finite chain of single uses. */
  ghost predicate Chain(c: seq<Bytes>, s: Bytes, t: Bytes) {
    && c != [] && c[0] == s && c[|c| - 1] == t
    && forall k :: 0 <= k < |c| - 1 ==> Rewrites(c[k], c[k + 1])
  }

  lemma {:induction false} ReachesIsChain(s: Bytes, t: Bytes) returns (c: seq<Bytes>)
    requires Reaches(s, t)
    ensures Chain(c, s, t)
    decreases |s|
  {
    if s == t {
      c := [s];
    } else {
      var u :| Via(s, u, t);
      var d := ReachesIsChain(u, t);
      c := [s] + d;
    }
  }

  lemma {:induction false} ChainReaches(c: seq<Bytes>, s: Bytes, t: Bytes)
    requires Chain(c, s, t)
    ensures Reaches(s, t)
    decreases |c|
  {
    if |c| > 1 {
      var d := c[1..];
      assert Rewrites(c[0], c[1]);
      forall k | 0 <= k < |d| - 1 ensures Rewrites(d[k], d[k + 1]) {
        assert Rewrites(c[k + 1], c[k + 2]);
      }
      ChainReaches(d, c[1], t);
      var i: nat :| Rule(s, i) && c[1] == Drop(s, i);
      assert Via(s, c[1], t);
    }
  }

  /** Reaching is a finite chain of uses, and an irreducible text rewrites to nothing. */
  lemma ReachesExactly(s: Bytes, t: Bytes)
    ensures Reaches(s, t) <==> exists c :: Chain(c, s, t)
    ensures Irreducible(s) <==> forall u :: !Rewrites(s, u)
  {
    if Reaches(s, t) {
      var c := ReachesIsChain(s, t);
    }
    if c :| Chain(c, s, t) {
      ChainReaches(c, s, t);
    }
    if i: nat :| Rule(s, i) {
      assert Rewrites(s, Drop(s, i));
    }
  }

  // ----- a right-to-left evaluation of the normal form -----

  function Push(b: byte, r: Bytes): Bytes {
    if r == [] && White(b) then []
    else if r != [] && Blank(b) && r[0] == NEWLINE then r
    else if |r| > 1 && b == NEWLINE && r[0] == NEWLINE && r[1] == NEWLINE then r
    else [b] + r
  }

  function Normal(s: Bytes): Bytes {
    if s == [] then [] else Push(s[0], Normal(s[1..]))
  }

  lemma {:induction false} NormalOfConcat(a: Bytes, x: Bytes, y: Bytes)
    requires Normal(x) == Normal(y)
    ensures Normal(a + x) == Normal(a + y)
  {
    if a == [] {
      assert a + x == x && a + y == y;
    } else {
      NormalOfConcat(a[1..], x, y);
      assert (a + x)[1..] == a[1..] + x && (a + y)[1..] == a[1..] + y;
    }
  }

  /** Every rule keeps the right-to-left normal form. */
  lemma {:induction false} StepKeepsNormal(s: Bytes, i: nat)
    requires Rule(s, i)
    ensures Normal(s) == Normal(Drop(s, i))
  {
    var x, y := s[i..], s[i + 1..];
    assert s == s[..i] + x;
    assert x[1..] == y;
    if i + 1 < |s| && Blank(s[i]) {
      assert y[0] == NEWLINE;
    } else if i + 2 < |s| {
      var z := y[1..];
      assert y[0] == NEWLINE && z[0] == NEWLINE && Normal(y) == Push(NEWLINE, Normal(z));
      assert Normal(z) == Push(NEWLINE, Normal(z[1..]));
    } else {
      assert y == [] && Normal(y) == [];
    }
    assert Normal(x) == Push(x[0], Normal(y));
    assert Normal(x) == Normal(y);
    NormalOfConcat(s[..i], x, y);
  }

  lemma {:induction false} StepsKeepNormal(s: Bytes, t: Bytes)
    requires Reaches(s, t)
    ensures Normal(s) == Normal(t)
    decreases |s|
  {
    if s != t {
      var u :| Via(s, u, t);
      var i: nat :| Rule(s, i) && u == Drop(s, i);
      StepKeepsNormal(s, i);
      StepsKeepNormal(u, t);
    }
  }

  /** An irreducible text is its own normal form. */
  lemma {:induction false} NormalOfIrreducible(s: Bytes)
    requires Irreducible(s)
    ensures Normal(s) == s
  {
    if s != [] {
      var r := s[1..];
      forall i: nat ensures !Rule(r, i) {
        assert !Rule(s, i + 1);
      }
      NormalOfIrreducible(r);
      assert !Rule(s, 0);
    }
  }

  // ----- the three passes only ever use the rules -----

  lemma {:induction false} InContext(a: Bytes, x: Bytes, y: Bytes)
    requires Reaches(x, y)
    ensures Reaches(a + x, a + y)
    decreases |x|
  {
    if x != y {
      var u :| Via(x, u, y);
      var i: nat :| Rule(x, i) && u == Drop(x, i);
      InContext(a, u, y);
      assert Rule(a + x, |a| + i);
      assert a + u == Drop(a + x, |a| + i);
      assert Via(a + x, a + u, a + y);
    }
  }

  lemma {:induction false} Then(s: Bytes, t: Bytes, u: Bytes)
    requires Reaches(s, t) && Reaches(t, u)
    ensures Reaches(s, u)
    decreases |s|
  {
    if s != t {
      var v :| Via(s, v, t);
      Then(v, t, u);
      assert Via(s, v, u);
    }
  }

  lemma OneStep(s: Bytes, i: nat)
    requires Rule(s, i)
    ensures Reaches(s, Drop(s, i))
  {
    assert Via(s, Drop(s, i), Drop(s, i));
  }

  lemma {:induction false} BlanksDrop(blanks: Bytes, rest: Bytes)
    requires forall i :: 0 <= i < |blanks| ==> Blank(blanks[i])
    requires rest != [] && rest[0] == NEWLINE
    ensures Reaches(blanks + rest, rest)
  {
    if blanks == [] {
      assert blanks + rest == rest;
    } else {
      var i := |blanks| - 1;
      var u := blanks[..i] + rest;
      assert Rule(blanks + rest, i) && Drop(blanks + rest, i) == u;
      BlanksDrop(blanks[..i], rest);
      assert Via(blanks + rest, u, rest);
    }
  }

  lemma MatchDrops(s: Bytes)
    requires TrailingMatch(s) > 0
    ensures Reaches(s, [NEWLINE] + s[TrailingMatch(s)..])
  {
    var k := BlankRun(s);
    BlanksDrop(s[..k], [NEWLINE] + s[k + 1..]);
    assert s == s[..k] + ([NEWLINE] + s[k + 1..]);
  }

  lemma {:induction false} NewlinesDrop(s: Bytes)
    requires NewlineRun(s) >= 3
    ensures Reaches(s, [NEWLINE, NEWLINE] + s[NewlineRun(s)..])
  {
    var goal := [NEWLINE, NEWLINE] + s[NewlineRun(s)..];
    OneStep(s, 0);
    assert Drop(s, 0) == s[1..];
    if NewlineRun(s) == 3 {
      assert s[1..] == goal;
    } else {
      assert s[1..][NewlineRun(s) - 1..] == s[NewlineRun(s)..];
      NewlinesDrop(s[1..]);
      Then(s, s[1..], goal);
    }
  }

  /** Replacing the front a of s by b and cleaning the rest separately. */
  lemma ReplaceFront(s: Bytes, n: nat, b: Bytes, rest: Bytes)
    requires n <= |s|
    requires Reaches(s, b + s[n..]) && Reaches(s[n..], rest)
    ensures Reaches(s, b + rest)
  {
    InContext(b, s[n..], rest);
    Then(s, b + s[n..], b + rest);
  }

  lemma {:induction false} TrailingReached(s: Bytes)
    ensures Reaches(s, ReplaceTrailing(s))
  {
    if s != [] {
      var m := TrailingMatch(s);
      if m > 0 {
        TrailingReached(s[m..]);
        MatchDrops(s);
        ReplaceFront(s, m, [NEWLINE], ReplaceTrailing(s[m..]));
      } else {
        TrailingReached(s[1..]);
        assert [s[0]] + s[1..] == s;
        ReplaceFront(s, 1, [s[0]], ReplaceTrailing(s[1..]));
      }
    }
  }

  lemma {:induction false} BlankLinesReached(s: Bytes)
    ensures Reaches(s, ReplaceBlankLines(s))
  {
    if s != [] {
      var r := NewlineRun(s);
      if r >= 3 {
        BlankLinesReached(s[r..]);
        NewlinesDrop(s);
        ReplaceFront(s, r, [NEWLINE, NEWLINE], ReplaceBlankLines(s[r..]));
      } else {
        BlankLinesReached(s[1..]);
        assert [s[0]] + s[1..] == s;
        ReplaceFront(s, 1, [s[0]], ReplaceBlankLines(s[1..]));
      }
    }
  }

  lemma {:induction false} TrimReached(s: Bytes)
    ensures TrimRight(s) <= s
    ensures Reaches(s, TrimRight(s))
  {
    if s != [] && White(s[|s| - 1]) {
      var t := s[..|s| - 1];
      OneStep(s, |s| - 1);
      assert Drop(s, |s| - 1) == t;
      TrimReached(t);
      Then(s, t, TrimRight(t));
    }
  }

  lemma CleanReached(s: Bytes)
    ensures Reaches(s, Clean(s))
  {
    var a := ReplaceTrailing(s);
    var b := ReplaceBlankLines(a);
    TrailingReached(s);
    BlankLinesReached(a);
    TrimReached(b);
    Then(s, a, b);
    Then(s, b, Clean(s));
  }

  // ----- the result is irreducible -----

  predicate NoTrailing(s: Bytes) {
    forall i :: 0 <= i < |s| - 1 && Blank(s[i]) ==> s[i + 1] != NEWLINE
  }

  predicate NoTriple(s: Bytes) {
    forall i :: 0 <= i < |s| - 2 && s[i] == NEWLINE && s[i + 1] == NEWLINE ==> s[i + 2] != NEWLINE
  }

  lemma NoTrailingPush(b: byte, r: Bytes)
    requires NoTrailing(r) && (Blank(b) && r != [] ==> r[0] != NEWLINE)
    ensures NoTrailing([b] + r)
  {
    var s := [b] + r;
    forall i | 0 <= i < |s| - 1 && Blank(s[i]) ensures s[i + 1] != NEWLINE {
      assert i > 0 ==> s[i] == r[i - 1];
    }
  }

  lemma {:induction false} TrailingGone(s: Bytes)
    ensures NoTrailing(ReplaceTrailing(s))
    ensures s != [] ==> ReplaceTrailing(s) != []
    ensures s != [] && ReplaceTrailing(s)[0] == NEWLINE ==> s[0] == NEWLINE || TrailingMatch(s) > 0
  {
    if s != [] {
      var m := TrailingMatch(s);
      var t := s[if m > 0 then m else 1..];
      TrailingGone(t);
      NoTrailingPush(if m > 0 then NEWLINE else s[0], ReplaceTrailing(t));
    }
  }

  lemma {:induction false} TripleGone(s: Bytes)
    requires NoTrailing(s)
    ensures NoTrailing(ReplaceBlankLines(s)) && NoTriple(ReplaceBlankLines(s))
    ensures s != [] ==> ReplaceBlankLines(s) != [] && ReplaceBlankLines(s)[0] == s[0]
    ensures NewlineRun(s) <= 1 ==>
              var r := ReplaceBlankLines(s); |r| < 2 || r[0] != NEWLINE || r[1] != NEWLINE
  {
    if s != [] {
      var r := NewlineRun(s);
      TripleGone(s[if r >= 3 then r else 1..]);
    }
  }

  lemma {:induction false} TrimEnds(s: Bytes)
    ensures TrimRight(s) == [] || !White(TrimRight(s)[|TrimRight(s)| - 1])
  {
    if s != [] && White(s[|s| - 1]) {
      TrimEnds(s[..|s| - 1]);
    }
  }

  lemma CleanIrreducible(s: Bytes)
    ensures Irreducible(Clean(s))
  {
    TrailingGone(s);
    TripleGone(ReplaceTrailing(s));
    TrimReached(ReplaceBlankLines(ReplaceTrailing(s)));
    TrimEnds(ReplaceBlankLines(ReplaceTrailing(s)));
  }

  // ----- main results -----

  /** The three passes compute the right-to-left normal form. */
  lemma CleanIsNormal(s: Bytes)
    ensures Clean(s) == Normal(s)
  {
    CleanReached(s);
    StepsKeepNormal(s, Clean(s));
    CleanIrreducible(s);
    NormalOfIrreducible(Clean(s));
  }

  /** One use of a rule anywhere never changes what the cleanup returns. */
  lemma RewriteKeepsClean(s: Bytes, t: Bytes)
    requires Rewrites(s, t)
    ensures Clean(s) == Clean(t)
  {
    var i: nat :| Rule(s, i) && t == Drop(s, i);
    StepKeepsNormal(s, i);
    CleanIsNormal(s);
    CleanIsNormal(t);
  }

  /** The cleanup reaches the one irreducible text that s rewrites to, whatever rules are used in whatever order. */
  lemma CleanIsUniqueNormalForm(s: Bytes, t: Bytes)
    ensures Reaches(s, Clean(s)) && Irreducible(Clean(s))
    ensures Reaches(s, t) && Irreducible(t) <==> t == Clean(s)
  {
    CleanReached(s);
    CleanIrreducible(s);
    if Reaches(s, t) && Irreducible(t) {
      StepsKeepNormal(s, t);
      NormalOfIrreducible(t);
      CleanIsNormal(s);
    }
  }

  /** The cleanup leaves a text alone exactly when no rule applies anywhere in it. */
  lemma CleanFixpoint(s: Bytes)
    ensures Clean(s) == s <==> Irreducible(s)
    ensures Clean(Clean(s)) == Clean(s)
  {
    CleanIrreducible(s);
    CleanIsNormal(s);
    if Irreducible(s) {
      NormalOfIrreducible(s);
    }
    CleanIsNormal(Clean(s));
    NormalOfIrreducible(Clean(s));
  }

  /** The bytes of s that are not spaces, tabs or newlines, in order. */
  function Ink(s: Bytes): Bytes {
    if s == [] then [] else (if White(s[0]) then [] else [s[0]]) + Ink(s[1..])
  }

  lemma {:induction false} InkOfConcat(a: Bytes, b: Bytes)
    ensures Ink(a + b) == Ink(a) + Ink(b)
  {
    if a == [] {
      assert a + b == b;
    } else {
      InkOfConcat(a[1..], b);
      SlicesOfConcat(a, b, 1);
      ConcatAssociates(if White(a[0]) then [] else [a[0]], Ink(a[1..]), Ink(b));
    }
  }

  lemma {:induction false} StepsKeepInk(s: Bytes, t: Bytes)
    requires Reaches(s, t)
    ensures Ink(t) == Ink(s) && |t| <= |s|
    ensures s != t ==> |t| < |s|
    decreases |s|
  {
    if s != t {
      var u :| Via(s, u, t);
      var i: nat :| Rule(s, i) && u == Drop(s, i);
      StepsKeepInk(u, t);
      InkOfConcat(s[..i], s[i..]);
      InkOfConcat(s[..i], s[i + 1..]);
      assert s[i..][1..] == s[i + 1..] && s == s[..i] + s[i..];
    }
  }

  /** Only spaces, tabs and newlines are ever removed, and any change shortens the text. */
  lemma CleanKeepsInk(s: Bytes)
    ensures Ink(Clean(s)) == Ink(s)
    ensures Clean(s) != s ==> |Clean(s)| < |s|
  {
    CleanReached(s);
    StepsKeepInk(s, Clean(s));
  }

  /** What counts as ink: every byte but space, tab and newline, in order. */
  lemma {:induction false} InkExactly(s: Bytes, b: byte)
    ensures Ink([]) == []
    ensures Ink(s + [b]) == if b == 0x20 || b == 0x09 || b == 0x0A then Ink(s) else Ink(s) + [b]
  {
    if s == [] {
      assert [] + [b] == [b] && [b][1..] == [];
    } else {
      assert (s + [b])[1..] == s[1..] + [b];
      InkExactly(s[1..], b);
    }
  }
}
