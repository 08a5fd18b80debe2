// Message fingerprints (internal/pipeline/shape_cache.go:40-66): FNV-1a over four
// strings, each closed by a NUL byte, in 64-bit wrap-around arithmetic.
module Fingerprint {
  import opened ByteStrings
  import opened Messages

  const TWO_64: int := 0x1_0000_0000_0000_0000

  type uint64 = x: int | 0 <= x < TWO_64

  const OFFSET: uint64 := 1469598103934665603
  const PRIME: uint64 := 1099511628211
  // PRIME * INVERSE == 1 modulo 2^64
  const INVERSE: uint64 := 0xce96_5057_aff6_957b

  function Pow2(n: nat): nat {
    if n == 0 then 1 else 2 * Pow2(n - 1)
  }

  /** Exclusive or of the low n bits. */
  function XorBits(a: nat, b: nat, n: nat): (r: nat) {
    if n == 0 then 0 else 2 * XorBits(a / 2, b / 2, n - 1) + (if a % 2 == b % 2 then 0 else 1)
  }

  lemma {:induction false} XorInverse(a: nat, b: nat, n: nat)
    requires a < Pow2(n)
    ensures XorBits(a, b, n) < Pow2(n) && XorBits(XorBits(a, b, n), b, n) == a
  {
    if n > 0 {
      XorInverse(a / 2, b / 2, n - 1);
      var x := XorBits(a, b, n);
      assert x / 2 == XorBits(a / 2, b / 2, n - 1);
    }
  }

  lemma Pow2Of64()
    ensures Pow2(64) == TWO_64
  {
    assert Pow2(8) == 0x100 && Pow2(16) == 0x1_0000 && Pow2(24) == 0x100_0000 && Pow2(32) == 0x1_0000_0000;
    assert Pow2(40) == 0x100_0000_0000 && Pow2(48) == 0x1_0000_0000_0000 && Pow2(56) == 0x100_0000_0000_0000;
  }

  function Xor(h: uint64, b: uint64): uint64 {
    Pow2Of64();
    XorInverse(h, b, 64);
    XorBits(h, b, 64)
  }

  function Times(h: uint64, m: uint64): uint64 {
    h * m % TWO_64
  }

  /** One byte of the hash. */
  function Step(h: uint64, b: byte): uint64 {
    Times(Xor(h, b), PRIME)
  }

  /** The step that takes a hash back over byte b. */
  function Unstep(h: uint64, b: byte): uint64 {
    Xor(Times(h, INVERSE), b)
  }

  function Hash(h: uint64, bytes: Bytes): uint64 {
    if bytes == [] then h else Step(Hash(h, bytes[..|bytes| - 1]), bytes[|bytes| - 1])
  }

  /** The parts of a fingerprint, each closed by a NUL byte. */
  function Terminated(parts: seq<Bytes>): Bytes {
    if parts == [] then [] else Terminated(parts[..|parts| - 1]) + parts[|parts| - 1] + [0]
  }

  lemma HashAppend(h: uint64, bytes: Bytes, b: byte)
    ensures Hash(h, bytes + [b]) == Step(Hash(h, bytes), b)
  {
    assert (bytes + [b])[..|bytes|] == bytes;
  }

  lemma TerminatedAppend(parts: seq<Bytes>, k: nat)
    requires k < |parts|
    ensures Terminated(parts[..k + 1]) == Terminated(parts[..k]) + parts[k] + [0]
  {
    assert parts[..k + 1][..k] == parts[..k];
  }

  lemma NextByte(done: Bytes, p: Bytes, i: nat)
    requires i < |p|
    ensures done + p[..i + 1] == done + p[..i] + [p[i]]
  {
  }

  /** fnv64 hashes the NUL-terminated concatenation of its parts, byte by byte. */
  method Fnv64(parts: seq<Bytes>) returns (h: uint64)
    ensures h == Hash(OFFSET, Terminated(parts))
  {
    h := OFFSET;
    for k := 0 to |parts|
      invariant h == Hash(OFFSET, Terminated(parts[..k]))
    {
      var p := parts[k];
      ghost var done := Terminated(parts[..k]);
      assert done + p[..0] == done;
      for i := 0 to |p|
        invariant h == Hash(OFFSET, done + p[..i])
      {
        NextByte(done, p, i);
        HashAppend(OFFSET, done + p[..i], p[i]);
        h := Xor(h, p[i]);
        h := Times(h, PRIME);
      }
      assert p[..|p|] == p;
      TerminatedAppend(parts, k);
      HashAppend(OFFSET, done + p, 0);
      h := Xor(h, 0);
      h := Times(h, PRIME);
    }
    assert parts[..|parts|] == parts;
  }

  // ----- the arithmetic -----

  /** Bit i of x. */
  function Bit(x: nat, i: nat): nat {
    if i == 0 then x % 2 else Bit(x / 2, i - 1)
  }

  lemma {:induction false} XorBitsAt(a: nat, b: nat, n: nat, i: nat)
    requires i < n
    ensures Bit(XorBits(a, b, n), i) == if Bit(a, i) == Bit(b, i) then 0 else 1
  {
    var x := XorBits(a, b, n);
    assert x / 2 == XorBits(a / 2, b / 2, n - 1);
    if i > 0 {
      XorBitsAt(a / 2, b / 2, n - 1, i - 1);
    }
  }

  /** One byte of the hash: exclusive or bit by bit, then multiplication modulo 2^64. */
  lemma StepExactly(h: uint64, b: byte, i: nat)
    requires i < 64
    ensures Bit(Xor(h, b), i) == if Bit(h, i) == Bit(b, i) then 0 else 1
    ensures Step(h, b) == Xor(h, b) * 1099511628211 % 0x1_0000_0000_0000_0000
    ensures Hash(OFFSET, []) == 1469598103934665603
  {
    XorBitsAt(h, b, 64, i);
  }

  // ----- injectivity -----

  lemma TimesInverse(x: uint64)
    ensures Times(Times(x, PRIME), INVERSE) == x
  {
    var q, r := x * PRIME / TWO_64, x * PRIME % TWO_64;
    var k := PRIME * INVERSE / TWO_64;
    assert PRIME * INVERSE == k * TWO_64 + 1;
    assert r * INVERSE == x + TWO_64 * (k * x - q * INVERSE);
    ModuloShift(x, k * x - q * INVERSE);
  }

  lemma ModuloShift(x: uint64, m: int)
    ensures (x + TWO_64 * m) % TWO_64 == x
  {
  }

  lemma XorTwice(h: uint64, b: uint64)
    ensures Xor(Xor(h, b), b) == h
  {
    Pow2Of64();
    XorInverse(h, b, 64);
  }

  /** Each step is a bijection of the 64-bit hashes. */
  lemma StepBijective(h: uint64, b: byte)
    ensures Unstep(Step(h, b), b) == h
    ensures Step(Unstep(h, b), b) == h
  {
    TimesInverse(Xor(h, b));
    XorTwice(h, b);
    XorTwice(Times(h, INVERSE), b);
    assert h * INVERSE % TWO_64 * PRIME % TWO_64 == h by {
      InverseTimes(h);
    }
  }

  lemma InverseTimes(x: uint64)
    ensures Times(Times(x, INVERSE), PRIME) == x
  {
    var q, r := x * INVERSE / TWO_64, x * INVERSE % TWO_64;
    var k := PRIME * INVERSE / TWO_64;
    assert r * PRIME == x + TWO_64 * (k * x - q * PRIME);
    ModuloShift(x, k * x - q * PRIME);
  }

  lemma {:induction false} HashInjectiveInState(g: uint64, h: uint64, bytes: Bytes)
    ensures Hash(g, bytes) == Hash(h, bytes) <==> g == h
  {
    if bytes != [] {
      var front, b := bytes[..|bytes| - 1], bytes[|bytes| - 1];
      HashInjectiveInState(g, h, front);
      StepBijective(Hash(g, front), b);
      StepBijective(Hash(h, front), b);
    }
  }

  lemma {:induction false} XorInjective(h: nat, a: nat, b: nat, n: nat)
    requires a < Pow2(n) && b < Pow2(n)
    ensures XorBits(h, a, n) == XorBits(h, b, n) <==> a == b
  {
    if n > 0 {
      XorInjective(h / 2, a / 2, b / 2, n - 1);
    }
  }

  lemma StepInjectiveInByte(h: uint64, a: byte, b: byte)
    ensures Step(h, a) == Step(h, b) <==> a == b
  {
    TimesInverse(Xor(h, a));
    TimesInverse(Xor(h, b));
    Pow2Of64();
    XorInjective(h, a, b, 64);
  }

  lemma {:induction false} HashConcat(h: uint64, x: Bytes, y: Bytes)
    ensures Hash(h, x + y) == Hash(Hash(h, x), y)
  {
    if y == [] {
      assert x + y == x;
    } else {
      assert (x + y)[..|x + y| - 1] == x + y[..|y| - 1];
      HashConcat(h, x, y[..|y| - 1]);
    }
  }

  lemma MiddleByteMatters(x: Bytes, a: byte, b: byte, y: Bytes)
    requires a != b
    ensures Hash(OFFSET, x + [a] + y) != Hash(OFFSET, x + [b] + y)
  {
    var h := Hash(OFFSET, x);
    HashConcat(OFFSET, x + [a], y);
    HashConcat(OFFSET, x + [b], y);
    HashAppend(OFFSET, x, a);
    HashAppend(OFFSET, x, b);
    StepInjectiveInByte(h, a, b);
    HashInjectiveInState(Step(h, a), Step(h, b), y);
  }

  /** Concatenations of equal length that differ in exactly one byte never collide. */
  lemma OneByteNeverCollides(p: seq<Bytes>, q: seq<Bytes>, i: nat)
    requires |Terminated(p)| == |Terminated(q)| && i < |Terminated(p)|
    requires forall j :: 0 <= j < |Terminated(p)| ==> (Terminated(p)[j] != Terminated(q)[j] <==> i == j)
    ensures Hash(OFFSET, Terminated(p)) != Hash(OFFSET, Terminated(q))
  {
    var s, t := Terminated(p), Terminated(q);
    assert s == s[..i] + [s[i]] + s[i + 1..];
    assert t == s[..i] + [t[i]] + s[i + 1..];
    MiddleByteMatters(s[..i], s[i], t[i], s[i + 1..]);
  }

  /** The fingerprint of one message. */
  function OfMessage(m: Message): uint64 {
    Hash(OFFSET, Terminated([m.role, m.content, m.name, m.toolCallID]))
  }

  function OfMessages(msgs: seq<Message>): seq<uint64> {
    seq(|msgs|, i requires 0 <= i < |msgs| => OfMessage(msgs[i]))
  }

  method FingerprintMessages(msgs: array<Message>) returns (out: seq<uint64>)
    ensures out == OfMessages(msgs[..])
  {
    out := [];
    for i := 0 to msgs.Length
      invariant out == OfMessages(msgs[..i])
    {
      var m := msgs[i];
      var h := Fnv64([m.role, m.content, m.name, m.toolCallID]);
      out := out + [h];
    }
    assert msgs[..msgs.Length] == msgs[..];
  }

  /** What a fingerprint covers: role, raw content, name and tool-call ID, each closed by a NUL byte. */
  function Covered(m: Message): Bytes {
    m.role + [0] + m.content + [0] + m.name + [0] + m.toolCallID + [0]
  }

  lemma FourParts(a: Bytes, b: Bytes, c: Bytes, d: Bytes)
    ensures Terminated([a, b, c, d]) == a + [0] + b + [0] + c + [0] + d + [0]
  {
    var p := [a, b, c, d];
    TerminatedAppend(p, 0);
    TerminatedAppend(p, 1);
    TerminatedAppend(p, 2);
    TerminatedAppend(p, 3);
    assert p[..4] == p && [] + a == a;
  }

  lemma CoversFields(m: Message)
    ensures OfMessage(m)
            == Hash(1469598103934665603, m.role + [0] + m.content + [0] + m.name + [0] + m.toolCallID + [0])
  {
    FourParts(m.role, m.content, m.name, m.toolCallID);
  }

  /** Two messages whose covered bytes have equal lengths and differ in one byte have different fingerprints. */
  lemma OneByteOfMessage(m: Message, n: Message, i: nat)
    requires |Covered(m)| == |Covered(n)| && i < |Covered(m)|
    requires forall j :: 0 <= j < |Covered(m)| ==> (Covered(m)[j] != Covered(n)[j] <==> i == j)
    ensures OfMessage(m) != OfMessage(n)
  {
    FourParts(m.role, m.content, m.name, m.toolCallID);
    FourParts(n.role, n.content, n.name, n.toolCallID);
    OneByteNeverCollides([m.role, m.content, m.name, m.toolCallID], [n.role, n.content, n.name, n.toolCallID], i);
  }
}
