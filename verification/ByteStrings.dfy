// Text as the program sees it: Go strings and raw JSON values are byte sequences.
module ByteStrings {

  type byte = b: int | 0 <= b < 256

  type Bytes = seq<byte>

  datatype Option<+T> = None | Some(value: T)

  const SPACE: byte := 0x20
  const TAB: byte := 0x09
  const NEWLINE: byte := 0x0A
  const RETURN: byte := 0x0D
  const QUOTE: byte := 0x22
  const BACKSLASH: byte := 0x5C

  /** The bytes of an ASCII literal. */
  function Ascii(s: string): (b: Bytes)
    ensures |b| == |s|
    ensures forall i :: 0 <= i < |s| && s[i] < 128 as char ==> b[i] == s[i] as int
  {
    seq(|s|, i requires 0 <= i < |s| => (s[i] as int) % 256)
  }

  lemma SlicesOfConcat<T>(x: seq<T>, y: seq<T>, n: nat)
    requires n <= |x|
    ensures (x + y)[n..] == x[n..] + y
    ensures (x + y)[..n] == x[..n]
    ensures x[..n] + x[n..] == x
  {
  }

  lemma NestedSlices<T>(s: seq<T>, m: nat, j: nat)
    requires m <= m + j <= |s|
    ensures s[m..][..j] == s[m..m + j] && s[..m] + s[m..][..j] == s[..m + j]
    ensures s[m..][j..] == s[m + j..]
  {
  }

  /** All parts in a row. */
  function Flat<T>(parts: seq<seq<T>>): seq<T> {
    if parts == [] then [] else Flat(parts[..|parts| - 1]) + parts[|parts| - 1]
  }

  lemma {:induction false} FlatHas<T>(parts: seq<seq<T>>, i: nat, e: T)
    requires i < |parts| && e in parts[i]
    ensures e in Flat(parts)
  {
    if i < |parts| - 1 {
      FlatHas(parts[..|parts| - 1], i, e);
    }
  }

  lemma {:induction false} FlatSource<T>(parts: seq<seq<T>>, e: T) returns (i: nat)
    requires e in Flat(parts)
    ensures i < |parts| && e in parts[i]
  {
    var n := |parts| - 1;
    if e in parts[n] {
      i := n;
    } else {
      i := FlatSource(parts[..n], e);
    }
  }

  lemma ConcatAssociates<T>(x: seq<T>, y: seq<T>, z: seq<T>)
    ensures (x + y) + z == x + (y + z)
  {
  }
}

// Decimal notation of natural numbers.
module Decimals {
  import opened ByteStrings

  /** strconv.Itoa */
  function Decimal(n: nat): (d: Bytes)
    ensures d != []
    ensures forall b :: b in d ==> 0x30 <= b <= 0x39
  {
    if n < 10 then [0x30 + n] else Decimal(n / 10) + [0x30 + n % 10]
  }

  lemma {:induction false} DecimalShort(n: nat)
    ensures |Decimal(n)| <= n / 10 + 1
  {
    if n >= 10 {
      DecimalShort(n / 10);
    }
  }

  function Pow10(k: nat): nat {
    if k == 0 then 1 else 10 * Pow10(k - 1)
  }

  lemma {:induction false} DecimalDigits(n: nat, k: nat)
    requires n < Pow10(k) && k > 0
    ensures |Decimal(n)| <= k
  {
    if n >= 10 {
      assert k > 1;
      DecimalDigits(n / 10, k - 1);
    }
  }

  predicate Digit(b: byte) {
    0x30 <= b <= 0x39
  }

  /** The number a string of decimal digits denotes. */
  function DecimalValue(d: Bytes): nat
    requires forall i :: 0 <= i < |d| ==> Digit(d[i])
  {
    if d == [] then 0 else
    assert Digit(d[|d| - 1]);
    DecimalValue(d[..|d| - 1]) * 10 + (d[|d| - 1] as int - 0x30)
  }

  lemma {:induction false} DecimalRoundTrip(n: nat)
    ensures forall i :: 0 <= i < |Decimal(n)| ==> Digit(Decimal(n)[i])
    ensures DecimalValue(Decimal(n)) == n
  {
    if n < 10 {
      assert Decimal(n)[..0] == [];
    } else {
      DecimalRoundTrip(n / 10);
      assert Decimal(n)[..|Decimal(n)| - 1] == Decimal(n / 10);
    }
  }

  /** Leading zeros are not written, and appending a digit multiplies by ten. */
  lemma {:induction false} DecimalExactly(n: nat)
    ensures n < 10 ==> Decimal(n) == [0x30 + n]
    ensures n >= 10 ==> Decimal(n) == Decimal(n / 10) + [0x30 + n % 10] && Decimal(n)[0] != 0x30
    ensures n > 0 ==> Decimal(n)[0] != 0x30
  {
    if n >= 10 {
      DecimalExactly(n / 10);
    }
  }

  lemma DecimalValueStep(d: Bytes, b: byte)
    requires (forall i :: 0 <= i < |d| ==> Digit(d[i])) && 0x30 <= b <= 0x39
    ensures forall i :: 0 <= i < |d + [b]| ==> Digit((d + [b])[i])
    ensures DecimalValue([]) == 0 && DecimalValue(d + [b]) == 10 * DecimalValue(d) + (b as int - 0x30)
  {
    assert (d + [b])[..|d|] == d;
  }
}
