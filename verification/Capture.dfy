// The response writer's sliding tail (cmd/thin/main.go:658-697) and the cache
// signal a handler records from it (cmd/thin/main.go:314-319).
module Capture {
  import opened ByteStrings
  import Decimals
  import opened Usage
  import opened Sessions

  const RESPONSE_TAIL_BYTES: nat := 8192
  const STATUS_OK: int := 200

  class CaptureWriter {
    var status: int
    var bodyBytes: nat
    // the tail slice: a backing array and a length
    var buf: array<byte>
    var tailLen: nat
    // everything written so far
    ghost var stream: Bytes

    ghost predicate Valid()
      reads this, buf
    {
      && RESPONSE_TAIL_BYTES <= buf.Length
      && tailLen <= buf.Length
      && buf[..tailLen] == Last(stream, RESPONSE_TAIL_BYTES)
      && bodyBytes == |stream|
    }

    ghost function Tail(): Bytes
      requires tailLen <= buf.Length
      reads this, buf
    {
      buf[..tailLen]
    }

    constructor ()
      ensures Valid() && fresh(buf) && stream == [] && status == 0
    {
      status := 0;
      bodyBytes := 0;
      buf := new byte[RESPONSE_TAIL_BYTES](i => 0);
      tailLen := 0;
      stream := [];
    }

    method WriteHeader(code: int)
      requires Valid()
      modifies this`status
      ensures Valid() && status == code
    {
      status := code;
    }

    /** append(tail[:keep], b...): in place when the capacity allows, else into a larger array. */
    method Append(keep: nat, b: Bytes)
      requires keep <= tailLen <= buf.Length
      modifies this`buf, this`tailLen, buf
      ensures tailLen == keep + |b| <= buf.Length && old(buf.Length) <= buf.Length
      ensures buf == old(buf) || fresh(buf)
      ensures Tail() == old(Tail())[..keep] + b
    {
      var a := buf;
      if keep + |b| > a.Length {
        a := new byte[keep + |b|](i => 0);
        for i := 0 to keep
          modifies a
          invariant forall j :: 0 <= j < i ==> a[j] == buf[j]
        {
          a[i] := buf[i];
        }
      }
      ghost var was := old(Tail())[..keep];
      assert a[..keep] == was;
      for i := 0 to |b|
        modifies a
        invariant a[..keep] == was
        invariant forall j :: 0 <= j < i ==> a[keep + j] == b[j]
      {
        a[keep + i] := b[i];
      }
      assert a[..keep + |b|] == was + b;
      buf := a;
      tailLen := keep + |b|;
    }

    /** copy(tail, tail[excess:]) and the re-slice: the overlapping copy runs upwards,
        so it reads each byte before it is overwritten. */
    method DropFront(excess: nat)
      requires excess <= tailLen <= buf.Length
      modifies this`tailLen, buf
      ensures tailLen == old(tailLen) - excess && Tail() == old(Tail())[excess..]
    {
      var n, a := tailLen - excess, buf;
      for i := 0 to n
        modifies a
        invariant forall j :: 0 <= j < i ==> a[j] == old(buf[j + excess])
        invariant forall j :: i <= j < n + excess ==> a[j] == old(buf[j])
      {
        a[i] := a[i + excess];
      }
      tailLen := n;
    }

    method Write(b: Bytes)
      requires Valid()
      modifies this, buf
      ensures Valid() && stream == old(stream) + b
      ensures buf == old(buf) || fresh(buf)
      ensures status == if old(status) == 0 then 200 else old(status)
      ensures Tail() == Slide(old(Tail()), b)
      ensures Tail() == if |stream| <= 8192 then stream else stream[|stream| - 8192..]
    {
      ghost var tail := Tail();
      if status == 0 {
        status := STATUS_OK;
      }
      bodyBytes := bodyBytes + |b|;
      SlideCases(tail, b);
      if |b| >= RESPONSE_TAIL_BYTES {
        Append(0, b[|b| - RESPONSE_TAIL_BYTES..]);
      } else {
        Append(tailLen, b);
        if tailLen > RESPONSE_TAIL_BYTES {
          DropFront(tailLen - RESPONSE_TAIL_BYTES);
        }
      }
      assert Tail() == Slide(tail, b);
      LastOfAppend(stream, b, RESPONSE_TAIL_BYTES);
      stream := stream + b;
    }

    method OutputTokensEstimate() returns (tokens: nat)
      requires Valid()
      ensures tokens == |stream| / 4
    {
      tokens := bodyBytes / 4;
    }
  }

  /** The window after one more chunk. */
  function Slide(tail: Bytes, b: Bytes): Bytes {
    Last(tail + b, RESPONSE_TAIL_BYTES)
  }

  /** The three ways the writer reaches the next window. */
  lemma SlideCases(tail: Bytes, b: Bytes)
    ensures |b| >= RESPONSE_TAIL_BYTES ==> Slide(tail, b) == tail[..0] + b[|b| - RESPONSE_TAIL_BYTES..]
    ensures |tail + b| <= RESPONSE_TAIL_BYTES ==> Slide(tail, b) == tail[..|tail|] + b
    ensures |tail + b| > RESPONSE_TAIL_BYTES ==>
              Slide(tail, b) == (tail[..|tail|] + b)[|tail + b| - RESPONSE_TAIL_BYTES..]
  {
    assert tail[..|tail|] == tail;
  }

  lemma LastOfAppend(s: Bytes, b: Bytes, n: nat)
    ensures Last(Last(s, n) + b, n) == Last(s + b, n)
    ensures |b| >= n ==> Last(s + b, n) == b[|b| - n..]
  {
  }

  function SlideAll(chunks: seq<Bytes>): Bytes {
    if chunks == [] then [] else Slide(SlideAll(chunks[..|chunks| - 1]), chunks[|chunks| - 1])
  }

  /** However a response is cut into chunks, the window is the last 8192 bytes of the whole. */
  lemma {:induction false} ChunkingIrrelevant(chunks: seq<Bytes>)
    ensures SlideAll(chunks) == Last(Flat(chunks), RESPONSE_TAIL_BYTES)
  {
    if chunks != [] {
      ChunkingIrrelevant(chunks[..|chunks| - 1]);
      LastOfAppend(Flat(chunks[..|chunks| - 1]), chunks[|chunks| - 1], RESPONSE_TAIL_BYTES);
    }
  }

  /** In literal terms: all of a short response, the last 8192 bytes of a long one. */
  lemma WindowExactly(chunks: seq<Bytes>)
    ensures var s := Flat(chunks); SlideAll(chunks) == if |s| <= 8192 then s else s[|s| - 8192..]
  {
    ChunkingIrrelevant(chunks);
  }

  /** A positive number of cached tokens; a missing signal counts as no hit. */
  predicate IsHit(body: Bytes) {
    Extract(body).Some? && Extract(body).value > 0
  }

  /** A response is a hit exactly when the number behind the key is positive; a missing
      signal is no hit. */
  lemma HitExactly(body: Bytes, i: nat, spaces: Bytes, n: nat, rest: Bytes)
    requires forall k :: 0 <= k < |spaces| ==> spaces[k] in [0x20, 0x09, 0x0A, 0x0D]
    requires n < 0x8000_0000_0000_0000 && (rest != [] ==> !(0x30 <= rest[0] <= 0x39))
    ensures var key := [0x22] + Ascii("cached_tokens") + [0x22, 0x3A];
            LastAt(body, key, i) && body[i + |key|..] == spaces + Decimals.Decimal(n) + rest ==>
              (IsHit(body) <==> n > 0)
    ensures Extract(body) == None ==> !IsHit(body)
  {
    var key := [0x22] + Ascii("cached_tokens") + [0x22, 0x3A];
    if LastAt(body, key, i) && body[i + |key|..] == spaces + Decimals.Decimal(n) + rest {
      OpenAISignal(body, i, spaces, n, rest);
    }
  }

  /** What a handler records on its session after the response went through. */
  method RecordSignal(cap: CaptureWriter, sess: Session)
    requires cap.Valid()
    modifies sess
    ensures sess.State() == old(sess.State()).(lastCacheHit := IsHit(Last(cap.stream, RESPONSE_TAIL_BYTES)))
    ensures SignalVisible(cap.stream, RESPONSE_TAIL_BYTES) ==> sess.State().lastCacheHit == IsHit(cap.stream)
  {
    var cacheHit := false;
    var n, ok := ExtractCacheHit(cap.buf[..cap.tailLen]);
    if ok {
      cacheHit := n > 0;
    }
    sess.RecordCacheHit(cacheHit);
    WindowExtract(cap.stream, RESPONSE_TAIL_BYTES);
  }

  /** The recorded hit for a response written in any chunks. */
  lemma SignalOfChunks(chunks: seq<Bytes>)
    ensures SignalVisible(Flat(chunks), RESPONSE_TAIL_BYTES) ==> Extract(SlideAll(chunks)) == Extract(Flat(chunks))
    ensures |Flat(chunks)| <= RESPONSE_TAIL_BYTES ==> Extract(SlideAll(chunks)) == Extract(Flat(chunks))
  {
    ChunkingIrrelevant(chunks);
    WindowExtract(Flat(chunks), RESPONSE_TAIL_BYTES);
  }
}
