// prune_tools (internal/pipeline/prune_tools.go).
module Prune {
  import opened ByteStrings
  import opened Messages
  import opened Sessions

  const MIN_OBSERVED_TURNS: nat := 3

  /** The three lists of names that a tool is looked up in. */
  datatype Names = Names(protectedTools: set<Bytes>, usedInRequest: set<Bytes>, usedInSession: map<Bytes, nat>)

  /** Kept if protected, used or forced in this request, or ever used in the session. */
  predicate Keeps(name: Bytes, ns: Names) {
    name in ns.protectedTools || name in ns.usedInRequest || UsedCount(ns.usedInSession, name) > 0
  }

  /** No pruning without tools, before three observed turns, or after a cache hit. */
  predicate Gated(tools: nat, st: SessionState) {
    tools == 0 || st.turns < MIN_OBSERVED_TURNS || st.lastCacheHit
  }

  /** The positions below n of the tools that are kept (or, with keep false, dropped). */
  function Positions(tools: seq<Tool>, n: nat, keep: bool, ns: Names): seq<nat>
    requires n <= |tools|
  {
    if n == 0 then [] else
    var before := Positions(tools, n - 1, keep, ns);
    if Keeps(tools[n - 1].name, ns) == keep then before + [n - 1] else before
  }

  /** Whether p picks, in order, exactly the tools below n whose decision is keep. */
  ghost predicate Selects(p: seq<nat>, tools: seq<Tool>, n: nat, keep: bool, ns: Names)
    requires n <= |tools|
  {
    && (forall a, b :: 0 <= a < b < |p| ==> p[a] < p[b])
    && (forall i: nat :: i in p <==> i < n && Keeps(tools[i].name, ns) == keep)
  }

  /** Kept and dropped positions partition the tools and stay in their original order. */
  lemma {:induction false} PositionsSelect(tools: seq<Tool>, n: nat, keep: bool, ns: Names)
    requires n <= |tools|
    ensures Selects(Positions(tools, n, keep, ns), tools, n, keep, ns)
    ensures |Positions(tools, n, keep, ns)| + |Positions(tools, n, !keep, ns)| == n
  {
    if n > 0 {
      PositionsSelect(tools, n - 1, keep, ns);
      var before := Positions(tools, n - 1, keep, ns);
      assert forall a :: 0 <= a < |before| ==> before[a] in before;
    }
  }

  /** The elements of tools at the given positions. */
  function Pick(tools: seq<Tool>, p: seq<nat>): (r: seq<Tool>)
    requires forall i :: i in p ==> i < |tools|
    ensures |r| == |p|
  {
    seq(|p|, a requires 0 <= a < |p| => assert p[a] in p; tools[p[a]])
  }

  function Kept(tools: seq<Tool>, n: nat, ns: Names): seq<Tool>
    requires n <= |tools|
  {
    PositionsSelect(tools, n, true, ns);
    Pick(tools, Positions(tools, n, true, ns))
  }

  function DroppedNames(tools: seq<Tool>, n: nat, ns: Names): seq<Bytes>
    requires n <= |tools|
  {
    PositionsSelect(tools, n, false, ns);
    NamesAt(Pick(tools, Positions(tools, n, false, ns)))
  }

  function NamesAt(tools: seq<Tool>): seq<Bytes> {
    seq(|tools|, i requires 0 <= i < |tools| => tools[i].name)
  }

  lemma PickAppend(tools: seq<Tool>, p: seq<nat>, i: nat)
    requires i < |tools| && forall a :: a in p ==> a < |tools|
    ensures forall a :: a in p + [i] ==> a < |tools|
    ensures Pick(tools, p + [i]) == Pick(tools, p) + [tools[i]]
    ensures NamesAt(Pick(tools, p + [i])) == NamesAt(Pick(tools, p)) + [tools[i].name]
  {
    var q := p + [i];
    assert forall a :: 0 <= a < |p| ==> q[a] == p[a] && p[a] in p;
    assert Pick(tools, q) == Pick(tools, p) + [tools[i]];
  }

  lemma KeptNext(tools: seq<Tool>, n: nat, ns: Names)
    requires n < |tools|
    ensures Kept(tools, n + 1, ns) ==
            Kept(tools, n, ns) + (if Keeps(tools[n].name, ns) then [tools[n]] else [])
    ensures DroppedNames(tools, n + 1, ns) ==
            DroppedNames(tools, n, ns) + (if Keeps(tools[n].name, ns) then [] else [tools[n].name])
  {
    PositionsSelect(tools, n, true, ns);
    PositionsSelect(tools, n, false, ns);
    var keep := Keeps(tools[n].name, ns);
    PickAppend(tools, Positions(tools, n, keep, ns), n);
  }

  function SetOf(names: seq<Bytes>): set<Bytes> {
    set n | n in names
  }

  /** What the request keeps by itself: the forced names and all names called in its messages. */
  function UsedInRequest(msgs: seq<Message>, forced: set<Bytes>): set<Bytes> {
    forced + SetOf(CallNames(msgs))
  }

  method CollectUsed(msgs: array<Message>, forced: set<Bytes>) returns (used: set<Bytes>)
    ensures used == UsedInRequest(msgs[..], forced)
    ensures forall name :: name in used <==> name in forced || Called(msgs[..], name)
  {
    used := forced;
    for i := 0 to msgs.Length
      invariant used == UsedInRequest(msgs[..i], forced)
    {
      var calls := msgs[i].toolCalls;
      for j := 0 to |calls|
        invariant used == UsedInRequest(msgs[..i], forced) + SetOf(NamesOf(calls[..j]))
      {
        assert calls[..j + 1][..j] == calls[..j];
        used := used + {calls[j].name};
      }
      assert calls[..|calls|] == calls && msgs[..i + 1][..i] == msgs[..i];
    }
    assert msgs[..msgs.Length] == msgs[..];
    forall name ensures name in used <==> name in forced || Called(msgs[..], name) {
      UsedMeans(msgs[..], forced, name);
    }
  }

  /** Filters the first n tools inside their own backing array: writing behind the read
      position never overwrites an unread tool. */
  method FilterInPlace(store: array<Tool>, n: nat, sess: Session, protectedTools: set<Bytes>, usedInRequest: set<Bytes>)
    returns (kept: nat, pruned: seq<Bytes>)
    requires n <= store.Length
    modifies store
    ensures var tools, ns := old(store[..n]), Names(protectedTools, usedInRequest, sess.State().toolsUsed);
            && kept <= n && store[..kept] == Kept(tools, n, ns)
            && pruned == DroppedNames(tools, n, ns)
  {
    ghost var tools, ns := store[..n], Names(protectedTools, usedInRequest, sess.State().toolsUsed);
    kept, pruned := 0, [];
    for i := 0 to n
      invariant kept <= i
      invariant store[..kept] == Kept(tools, i, ns)
      invariant forall j :: i <= j < n ==> store[j] == tools[j]
      invariant pruned == DroppedNames(tools, i, ns)
    {
      var t := store[i];
      KeptNext(tools, i, ns);
      var keep := t.name in protectedTools || t.name in usedInRequest;
      if !keep {
        keep := sess.HasUsedTool(t.name);
      }
      if keep {
        store[kept] := t;
        kept := kept + 1;
      } else {
        pruned := pruned + [t.name];
      }
    }
  }

  method PruneToolsWithReport(req: ChatRequest, sess: Session, protectedTools: set<Bytes>) returns (pruned: seq<Bytes>)
    requires req.Valid()
    modifies req, req.toolStore
    ensures req.Valid()
    ensures var tools, used := old(req.Tools()), UsedInRequest(req.messages[..], req.forced);
            if Gated(|tools|, sess.State()) then pruned == [] && req.Tools() == tools
            else var ns := Names(protectedTools, used, sess.State().toolsUsed);
                 req.Tools() == Kept(tools, |tools|, ns) && pruned == DroppedNames(tools, |tools|, ns)
    ensures forall i, j :: 0 <= i < req.messages.Length && 0 <= j < |req.messages[i].toolCalls| ==>
              req.messages[i].toolCalls[j].name !in pruned
  {
    pruned := [];
    if req.toolCount == 0 {
      return;
    }
    var turns := sess.Turns();
    if turns < MIN_OBSERVED_TURNS {
      return;
    }
    var hit := sess.LastCacheHit();
    if hit {
      return;
    }
    var usedInRequest := CollectUsed(req.messages, req.forced);
    ghost var tools := req.Tools();
    ghost var ns := Names(protectedTools, usedInRequest, sess.State().toolsUsed);
    var kept;
    kept, pruned := FilterInPlace(req.toolStore, req.toolCount, sess, protectedTools, usedInRequest);
    req.toolCount := kept;
    ghost var msgs := req.messages[..];
    forall name | name in pruned ensures !Called(msgs, name) {
      DroppedFrom(tools, |tools|, ns, name);
    }
    UncalledPruned(msgs, pruned);
  }

  // ----- which tools are dropped -----

  lemma UsedMeans(msgs: seq<Message>, forced: set<Bytes>, name: Bytes)
    ensures name in UsedInRequest(msgs, forced) <==> name in forced || Called(msgs, name)
  {
    CallNamesExact(msgs, name);
  }

  lemma {:induction false} DroppedFrom(tools: seq<Tool>, n: nat, ns: Names, name: Bytes)
    requires n <= |tools|
    ensures name in DroppedNames(tools, n, ns) <==> exists i: nat :: i < n && tools[i].name == name && !Keeps(name, ns)
  {
    PositionsSelect(tools, n, false, ns);
    var p := Positions(tools, n, false, ns);
    assert DroppedNames(tools, n, ns) == NamesAt(Pick(tools, p));
    if name in DroppedNames(tools, n, ns) {
      var a :| 0 <= a < |p| && NamesAt(Pick(tools, p))[a] == name;
      assert p[a] in p;
    }
    if i: nat :| i < n && tools[i].name == name && !Keeps(name, ns) {
      assert i in p;
      var a :| 0 <= a < |p| && p[a] == i;
      assert NamesAt(Pick(tools, p))[a] == name;
    }
  }

  lemma {:induction false} KeptFrom(tools: seq<Tool>, n: nat, ns: Names, t: Tool)
    requires n <= |tools|
    ensures t in Kept(tools, n, ns) <==> exists i: nat :: i < n && tools[i] == t && Keeps(t.name, ns)
  {
    PositionsSelect(tools, n, true, ns);
    var p := Positions(tools, n, true, ns);
    assert Kept(tools, n, ns) == Pick(tools, p);
    if t in Kept(tools, n, ns) {
      var a :| 0 <= a < |p| && Pick(tools, p)[a] == t;
      assert p[a] in p;
    }
    if i: nat :| i < n && tools[i] == t && Keeps(t.name, ns) {
      assert i in p;
      var a :| 0 <= a < |p| && p[a] == i;
      assert Pick(tools, p)[a] == t;
    }
  }

  lemma UncalledPruned(msgs: seq<Message>, pruned: seq<Bytes>)
    requires forall name :: name in pruned ==> !Called(msgs, name)
    ensures forall i, j :: 0 <= i < |msgs| && 0 <= j < |msgs[i].toolCalls| ==> msgs[i].toolCalls[j].name !in pruned
  {
  }

  /** Past the gates a tool goes exactly when its name is not protected, not forced, in no
      call of the request, and was never counted in the session. */
  lemma DroppedExactly(tools: seq<Tool>, i: nat, msgs: seq<Message>, forced: set<Bytes>, protectedTools: set<Bytes>,
                       used: map<Bytes, nat>)
    requires i < |tools|
    ensures var ns := Names(protectedTools, UsedInRequest(msgs, forced), used);
            var name := tools[i].name;
            && (name in DroppedNames(tools, |tools|, ns) <==>
                && name !in protectedTools && name !in forced && !Called(msgs, name)
                && (name in used ==> used[name] == 0))
            && (tools[i] in Kept(tools, |tools|, ns) <==> name !in DroppedNames(tools, |tools|, ns))
  {
    var ns := Names(protectedTools, UsedInRequest(msgs, forced), used);
    UsedMeans(msgs, forced, tools[i].name);
    DroppedFrom(tools, |tools|, ns, tools[i].name);
    KeptFrom(tools, |tools|, ns, tools[i]);
  }
}
