// One request through all passes (internal/pipeline/pipeline.go:58-109).
module Pipeline {
  import opened ByteStrings
  import opened Messages
  import opened Sessions
  import Compact
  import Dedupe
  import Fingerprint
  import Prune
  import Repeated
  import ShapeCache

  /** The messages that are forwarded: deduplicated, then compacted. */
  function Forward(msgs: seq<Message>): (r: seq<Message>)
    ensures |r| == |msgs|
  {
    Compact.CompactAll(Dedupe.DedupeAll(msgs))
  }

  datatype Pass = PruneTools | DedupeToolResults | CompactHistory | ShapeForCache

  datatype Result = Result(
    passesApplied: seq<Pass>,
    prunedTools: seq<Bytes>,
    deduped: seq<Dedupe.Entry>,
    compacted: seq<Compact.Entry>,
    repeated: seq<Repeated.Entry>)

  method ToolCallNames(msgs: array<Message>) returns (out: seq<Bytes>)
    ensures out == CallNames(msgs[..]) && |out| == CallsBefore(msgs[..], msgs.Length)
    ensures forall name :: name in out <==> Called(msgs[..], name)
  {
    out := [];
    for i := 0 to msgs.Length
      invariant out == CallNames(msgs[..i])
    {
      var calls := msgs[i].toolCalls;
      ghost var before := out;
      for j := 0 to |calls|
        invariant out == before + NamesOf(calls[..j])
      {
        assert calls[..j + 1][..j] == calls[..j];
        out := out + [calls[j].name];
      }
      assert calls[..|calls|] == calls && msgs[..i + 1][..i] == msgs[..i];
    }
    assert msgs[..msgs.Length] == msgs[..];
    CallNamesCount(msgs[..]);
    forall name ensures name in out <==> Called(msgs[..], name) {
      CallNamesExact(msgs[..], name);
    }
  }

  /** The applied passes, in the order they run. */
  function PassesOf(pruned: bool, deduped: bool, compacted: bool, shaped: bool): seq<Pass> {
    (if pruned then [PruneTools] else []) + (if deduped then [DedupeToolResults] else [])
    + (if compacted then [CompactHistory] else []) + (if shaped then [ShapeForCache] else [])
  }

  method NamePasses(pruned: bool, deduped: bool, compacted: bool, shaped: bool) returns (passes: seq<Pass>)
    ensures passes == PassesOf(pruned, deduped, compacted, shaped)
  {
    passes := [];
    if pruned {
      passes := passes + [PruneTools];
    }
    if deduped {
      passes := passes + [DedupeToolResults];
    }
    if compacted {
      passes := passes + [CompactHistory];
    }
    if shaped {
      passes := passes + [ShapeForCache];
    }
  }

  /** The state of the session of id before a request. */
  ghost function StateOf(store: Store, id: Bytes): SessionState
    reads store, if id in store.sessions then {store.sessions[id]} else {}
  {
    if id in store.sessions then store.sessions[id].State() else FRESH
  }

  /** What pruning does to the tools, and what it reports. */
  ghost predicate Pruned(enabled: bool, protectedTools: set<Bytes>, tools: seq<Tool>, msgs: seq<Message>,
                         forced: set<Bytes>, st: SessionState, kept: seq<Tool>, dropped: seq<Bytes>)
  {
    var ns := Prune.Names(protectedTools, Prune.UsedInRequest(msgs, forced), st.toolsUsed);
    if enabled && !Prune.Gated(|tools|, st)
    then kept == Prune.Kept(tools, |tools|, ns) && dropped == Prune.DroppedNames(tools, |tools|, ns)
    else kept == tools && dropped == []
  }

  /** A pass is named exactly when it did something, in the order the passes run. */
  lemma PassesExactly(pruned: bool, deduped: bool, compacted: bool, shaped: bool)
    ensures var passes := PassesOf(pruned, deduped, compacted, shaped);
            && (PruneTools in passes <==> pruned) && (DedupeToolResults in passes <==> deduped)
            && (CompactHistory in passes <==> compacted) && (ShapeForCache in passes <==> shaped)
    ensures PassesOf(true, true, true, true) == [PruneTools, DedupeToolResults, CompactHistory, ShapeForCache]
    ensures exists a, b, c, d :: PassesOf(pruned, deduped, compacted, shaped) == a + b + c + d
              && (a == [] || a == [PruneTools]) && (b == [] || b == [DedupeToolResults])
              && (c == [] || c == [CompactHistory]) && (d == [] || d == [ShapeForCache])
  {
  }

  /** Tools go only when pruning is enabled, three turns were observed and the last response
      was no hit; then exactly those whose name nothing keeps. */
  lemma PrunedExactly(enabled: bool, protectedTools: set<Bytes>, tools: seq<Tool>, msgs: seq<Message>,
                      forced: set<Bytes>, st: SessionState, kept: seq<Tool>, dropped: seq<Bytes>)
    requires Pruned(enabled, protectedTools, tools, msgs, forced, st, kept, dropped)
    ensures !enabled || st.turns < 3 || st.lastCacheHit ==> kept == tools && dropped == []
    ensures enabled && st.turns >= 3 && !st.lastCacheHit ==>
              forall i :: 0 <= i < |tools| ==>
                var name := tools[i].name;
                && (name in dropped <==>
                    && name !in protectedTools && name !in forced && !Called(msgs, name)
                    && (name in st.toolsUsed ==> st.toolsUsed[name] == 0))
                && (tools[i] in kept <==> name !in dropped)
  {
    if enabled && !Prune.Gated(|tools|, st) {
      forall i | 0 <= i < |tools| {
        Prune.DroppedExactly(tools, i, msgs, forced, protectedTools, st.toolsUsed);
      }
    }
  }

  class Pipeline {
    const store: Store
    const protectedTools: set<Bytes>
    const enablePruneTools: bool

    constructor (store: Store, protectedNames: seq<Bytes>, enablePruneTools: bool)
      ensures this.store == store && this.enablePruneTools == enablePruneTools
      ensures forall name :: name in protectedTools <==> name in protectedNames && name != []
    {
      var listed: set<Bytes> := {};
      for i := 0 to |protectedNames|
        invariant forall name :: name in listed <==> name in protectedNames[..i] && name != []
      {
        if protectedNames[i] != [] {
          listed := listed + {protectedNames[i]};
        }
      }
      this.store := store;
      this.protectedTools := listed;
      this.enablePruneTools := enablePruneTools;
    }

    /** What a request's messages and the previous fingerprints make the result say. */
    ghost predicate Reported(msgs: seq<Message>, previous: seq<Fingerprint.uint64>, result: Result) {
      && result.deduped == Dedupe.Report(msgs, 0)
      && result.compacted == Compact.Report(Dedupe.DedupeAll(msgs), Compact.Cutoff(|msgs|))
      && (exists firsts :: Repeated.IsReport(Repeated.Calls(msgs), firsts, result.repeated))
      && result.passesApplied == PassesOf(
           result.prunedTools != [], result.deduped != [], result.compacted != [],
           ShapeCache.CommonPrefix(previous, Fingerprint.OfMessages(Forward(msgs))) > 0)
    }

    /** Counting and pruning: the passes that look at the tools. */
    method ToolPasses(sess: Session, req: ChatRequest) returns (repeated: seq<Repeated.Entry>, pruned: seq<Bytes>)
      requires req.Valid()
      modifies sess, req, req.toolStore
      ensures req.Valid()
      ensures sess.State() == Observe(old(sess.State()), CallNames(req.messages[..]))
      ensures exists firsts :: Repeated.IsReport(Repeated.Calls(req.messages[..]), firsts, repeated)
      ensures Pruned(enablePruneTools, protectedTools, old(req.Tools()), req.messages[..], req.forced,
                     sess.State(), req.Tools(), pruned)
    {
      var names := ToolCallNames(req.messages);
      sess.ObserveToolCalls(names);
      repeated := Repeated.RepeatedToolCalls(req.messages);
      pruned := [];
      if enablePruneTools {
        pruned := Prune.PruneToolsWithReport(req, sess, protectedTools);
      }
    }

    /** Deduplication, compaction and the prefix measurement. */
    method MessagePasses(sess: Session, req: ChatRequest)
      returns (deduped: seq<Dedupe.Entry>, compacted: seq<Compact.Entry>, shaped: bool)
      modifies sess, req.messages
      ensures req.messages[..] == Forward(old(req.messages[..]))
      ensures sess.State() == old(sess.State()).(lastFingerprints := Some(Fingerprint.OfMessages(req.messages[..])))
      ensures deduped == Dedupe.Report(old(req.messages[..]), 0)
      ensures compacted == Compact.Report(Dedupe.DedupeAll(old(req.messages[..])), Compact.Cutoff(req.messages.Length))
      ensures shaped <==> ShapeCache.CommonPrefix(ShapeCache.Previous(old(sess.State())),
                                                  Fingerprint.OfMessages(req.messages[..])) > 0
    {
      deduped := Dedupe.DedupeToolResultsWithReport(req);
      compacted := Compact.CompactHistoryWithReport(req);
      shaped := ShapeCache.ShapeForCache(req.messages, sess);
    }

    /** All passes on the session of the request. */
    method RunPasses(sess: Session, req: ChatRequest) returns (result: Result)
      requires req.Valid()
      modifies sess, req, req.toolStore, req.messages
      ensures req.Valid() && req.messages[..] == Forward(old(req.messages[..]))
      ensures sess.State() == Observe(old(sess.State()), CallNames(old(req.messages[..])))
                              .(lastFingerprints := Some(Fingerprint.OfMessages(Forward(old(req.messages[..])))))
      ensures Pruned(enablePruneTools, protectedTools, old(req.Tools()), old(req.messages[..]), req.forced,
                     Observe(old(sess.State()), CallNames(old(req.messages[..]))), req.Tools(), result.prunedTools)
      ensures Reported(old(req.messages[..]), ShapeCache.Previous(old(sess.State())), result)
    {
      ghost var msgs := req.messages[..];
      var repeated, pruned := ToolPasses(sess, req);
      assert req.messages[..] == msgs;
      ghost var tools := req.Tools();
      var deduped, compacted, shaped := MessagePasses(sess, req);
      assert req.Tools() == tools;
      var passes := NamePasses(|pruned| > 0, |deduped| > 0, |compacted| > 0, shaped);
      result := Result(passes, pruned, deduped, compacted, repeated);
    }

    method Apply(id: Bytes, req: ChatRequest) returns (result: Result)
      requires store.Valid() && req.Valid()
      modifies store, if id in store.sessions then {store.sessions[id]} else {}, req, req.toolStore, req.messages
      ensures store.Valid() && req.Valid()
      ensures id in store.sessions && store.sessions == old(store.sessions)[id := store.sessions[id]]
      ensures req.messages[..] == Forward(old(req.messages[..]))
      ensures store.sessions[id].State()
              == Observe(old(StateOf(store, id)), CallNames(old(req.messages[..])))
                 .(lastFingerprints := Some(Fingerprint.OfMessages(Forward(old(req.messages[..])))))
      ensures Pruned(enablePruneTools, protectedTools, old(req.Tools()), old(req.messages[..]), req.forced,
                     Observe(old(StateOf(store, id)), CallNames(old(req.messages[..]))),
                     req.Tools(), result.prunedTools)
      ensures Reported(old(req.messages[..]), ShapeCache.Previous(old(StateOf(store, id))), result)
    {
      var sess := store.Get(id);
      assert sess.State() == old(StateOf(store, id));
      result := RunPasses(sess, req);
    }
  }
}
