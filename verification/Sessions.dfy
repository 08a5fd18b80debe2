// Per-session state (internal/session/session.go:31-127). Every method of the
// program holds the session's lock from its first to its last statement.
module Sessions {
  import opened ByteStrings
  import opened Fingerprint

  datatype SessionState = SessionState(
    turns: nat,
    toolsUsed: map<Bytes, nat>,
    lastFingerprints: Option<seq<uint64>>,
    lastCacheHit: bool)

  const FRESH: SessionState := SessionState(0, map[], None, false)

  /** How often a name is recorded; a missing key reads as zero. */
  function UsedCount(used: map<Bytes, nat>, name: Bytes): nat {
    if name in used then used[name] else 0
  }

  function CountNames(used: map<Bytes, nat>, names: seq<Bytes>): map<Bytes, nat> {
    if names == [] then used else
    var before := CountNames(used, names[..|names| - 1]);
    var name := names[|names| - 1];
    before[name := UsedCount(before, name) + 1]
  }

  function Observe(st: SessionState, names: seq<Bytes>): SessionState {
    st.(turns := st.turns + 1, toolsUsed := CountNames(st.toolsUsed, names))
  }

  /** Each recorded count grows by the number of occurrences in names. */
  lemma {:induction false} CountNamesAdds(used: map<Bytes, nat>, names: seq<Bytes>, name: Bytes)
    ensures UsedCount(CountNames(used, names), name) == UsedCount(used, name) + multiset(names)[name]
  {
    if names != [] {
      var front, last := names[..|names| - 1], names[|names| - 1];
      CountNamesAdds(used, front, name);
      assert names == front + [last];
    }
  }

  /** An observed history adds one turn and counts each of its names; fingerprints and the
      cache-hit flag stay. */
  lemma ObserveExactly(st: SessionState, names: seq<Bytes>, name: Bytes)
    ensures var now := Observe(st, names);
            && now.turns == st.turns + 1
            && (if name in now.toolsUsed then now.toolsUsed[name] else 0)
               == (if name in st.toolsUsed then st.toolsUsed[name] else 0) + multiset(names)[name]
            && now.lastFingerprints == st.lastFingerprints && now.lastCacheHit == st.lastCacheHit
  {
    CountNamesAdds(st.toolsUsed, names, name);
  }

  class Session {
    var turns: nat
    var toolsUsed: map<Bytes, nat>
    var lastFingerprints: Option<seq<uint64>>
    var lastCacheHit: bool

    function State(): SessionState
      reads this
    {
      SessionState(turns, toolsUsed, lastFingerprints, lastCacheHit)
    }

    constructor ()
      ensures State() == FRESH == SessionState(0, map[], None, false)
    {
      turns := 0;
      toolsUsed := map[];
      lastFingerprints := None;
      lastCacheHit := false;
    }

    method Turns() returns (n: nat)
      ensures n == State().turns
    {
      n := turns;
    }

    method HasUsedTool(name: Bytes) returns (used: bool)
      ensures used <==> UsedCount(State().toolsUsed, name) > 0
    {
      used := name in toolsUsed && toolsUsed[name] > 0;
    }

    method ObserveToolCalls(names: seq<Bytes>)
      modifies this
      ensures State() == Observe(old(State()), names)
    {
      ghost var was := toolsUsed;
      turns := turns + 1;
      for i := 0 to |names|
        invariant toolsUsed == CountNames(was, names[..i])
        invariant State() == old(State()).(turns := old(turns) + 1, toolsUsed := toolsUsed)
      {
        assert names[..i + 1][..i] == names[..i];
        toolsUsed := toolsUsed[names[i] := UsedCount(toolsUsed, names[i]) + 1];
      }
      assert names[..|names|] == names;
    }

    method LastMessageFingerprints() returns (fps: Option<seq<uint64>>)
      ensures fps == State().lastFingerprints
    {
      fps := lastFingerprints;
    }

    method RecordMessageFingerprints(fps: seq<uint64>)
      modifies this
      ensures State() == old(State()).(lastFingerprints := Some(fps))
    {
      lastFingerprints := Some(fps);
    }

    method RecordCacheHit(hit: bool)
      modifies this
      ensures State() == old(State()).(lastCacheHit := hit)
    {
      lastCacheHit := hit;
    }

    method LastCacheHit() returns (hit: bool)
      ensures hit == State().lastCacheHit
    {
      hit := lastCacheHit;
    }
  }

  class Store {
    var sessions: map<Bytes, Session>

    /** No two IDs share a session. */
    ghost predicate Valid()
      reads this
    {
      forall a, b :: a in sessions && b in sessions && a != b ==> sessions[a] != sessions[b]
    }

    constructor ()
      ensures Valid() && sessions == map[]
    {
      sessions := map[];
    }

    /** The session of id, created on first use; every other session is left as it was. */
    method Get(id: Bytes) returns (sess: Session)
      requires Valid()
      modifies this
      ensures Valid() && sessions == old(sessions)[id := sess]
      ensures id in old(sessions) ==> sess == old(sessions[id]) && sess.State() == old(sessions[id].State())
      ensures id !in old(sessions) ==> fresh(sess) && sess.State() == FRESH
    {
      if id in sessions {
        sess := sessions[id];
      } else {
        sess := new Session();
        sessions := sessions[id := sess];
      }
    }
  }
}
