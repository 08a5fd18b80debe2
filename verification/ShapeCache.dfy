// shape_cache (internal/pipeline/shape_cache.go:18-38).
module ShapeCache {
  import opened ByteStrings
  import opened Fingerprint
  import opened Messages
  import opened Sessions

  /** Length of the longest common prefix. */
  function CommonPrefix(a: seq<uint64>, b: seq<uint64>): (n: nat)
    ensures n <= |a| && n <= |b| && a[..n] == b[..n]
    ensures n < |a| && n < |b| ==> a[n] != b[n]
  {
    if a == [] || b == [] || a[0] != b[0] then 0 else 1 + CommonPrefix(a[1..], b[1..])
  }

  lemma {:induction false} CommonPrefixIs(a: seq<uint64>, b: seq<uint64>, n: nat)
    requires n <= |a| && n <= |b| && a[..n] == b[..n]
    requires n < |a| && n < |b| ==> a[n] != b[n]
    ensures CommonPrefix(a, b) == n
  {
    if n > 0 {
      assert a[0] == a[..n][0] && b[0] == b[..n][0];
      assert a[1..][..n - 1] == a[..n][1..] && b[1..][..n - 1] == b[..n][1..];
      CommonPrefixIs(a[1..], b[1..], n - 1);
    }
  }

  /** The fingerprints of the previous request, if there was one. */
  function Previous(st: SessionState): seq<uint64> {
    match st.lastFingerprints
    case None => []
    case Some(fps) => fps
  }

  /** A prefix is reported exactly when there was a request with messages before, and the
      first fingerprints are equal. */
  lemma ReportedExactly(st: SessionState, msgs: seq<Message>)
    ensures CommonPrefix(Previous(st), OfMessages(msgs)) > 0 <==>
            st.lastFingerprints.Some? && st.lastFingerprints.value != [] && msgs != []
            && st.lastFingerprints.value[0] == OfMessage(msgs[0])
    ensures forall fps :: st.lastFingerprints == Some(fps) ==> Previous(st) == fps
  {
  }

  method ShapeForCache(msgs: array<Message>, sess: Session) returns (shaped: bool)
    modifies sess
    ensures sess.State() == old(sess.State()).(lastFingerprints := Some(OfMessages(msgs[..])))
    ensures shaped <==> CommonPrefix(Previous(old(sess.State())), OfMessages(msgs[..])) > 0
  {
    var last := sess.LastMessageFingerprints();
    if last.None? || |last.value| == 0 {
      var first := FingerprintMessages(msgs);
      sess.RecordMessageFingerprints(first);
      return false;
    }
    var prev := last.value;
    var cur := FingerprintMessages(msgs);
    var stable := 0;
    for i := 0 to if |prev| < |cur| then |prev| else |cur|
      invariant stable == i && prev[..i] == cur[..i]
    {
      if prev[i] != cur[i] {
        break;
      }
      stable := stable + 1;
    }
    CommonPrefixIs(prev, cur, stable);
    sess.RecordMessageFingerprints(cur);
    return stable > 0;
  }
}
