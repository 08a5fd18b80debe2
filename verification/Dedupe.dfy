// dedupe_tool_results (internal/pipeline/dedupe_tool_results.go).
// A SHA-256 digest is represented by the bytes that are hashed.
module Dedupe {
  import opened ByteStrings
  import opened JsonString
  import opened Messages

  const BY_PROXY: Bytes := Ascii("[deduplicated by proxy:")
  const TOOL_CALL: Bytes := Ascii(" identical tool call")
  const IDENTICAL: Bytes := BY_PROXY + TOOL_CALL
  const APPEARS: Bytes := Ascii(" output appears later")
  const LATER: Bytes := APPEARS + Ascii(" in this conversation]")
  const STUB_TEXT: Bytes := IDENTICAL + LATER
  const STUB: Bytes := [QUOTE] + STUB_TEXT + [QUOTE]

  lemma ByProxyPlain()
    ensures Plain(BY_PROXY)
  {
    PlainAscii("[deduplicated by proxy:");
  }

  lemma IdenticalPlain()
    ensures Plain(IDENTICAL)
  {
    ByProxyPlain();
    PlainAscii(" identical tool call");
  }

  lemma StubText()
    ensures STUB == [0x22] + (Ascii("[deduplicated by proxy:") + Ascii(" identical tool call")
                              + (Ascii(" output appears later") + Ascii(" in this conversation]"))) + [0x22]
  {
  }

  lemma AppearsPlain()
    ensures Plain(APPEARS)
  {
    PlainAscii(" output appears later");
  }

  lemma LaterPlain()
    ensures Plain(LATER)
  {
    AppearsPlain();
    PlainAscii(" in this conversation]");
  }

  /** The stub is what json.Marshal writes for its text. */
  lemma StubIsEncoded()
    ensures EncodeString(STUB_TEXT) == STUB
    ensures Plain(STUB_TEXT)
  {
    IdenticalPlain();
    LaterPlain();
    PlainEncodes(STUB_TEXT);
  }

  function HashCall(name: Bytes, args: Bytes): Bytes {
    name + [0] + args
  }

  /** Names without NUL bytes are separated from the arguments without ambiguity. */
  lemma HashCallInjective(n: Bytes, a: Bytes, m: Bytes, b: Bytes)
    requires 0 !in n && 0 !in m
    ensures HashCall(n, a) == HashCall(m, b) <==> n == m && a == b
  {
    var x, y := HashCall(n, a), HashCall(m, b);
    assert x[|n|] == 0 && y[|m|] == 0;
    assert forall i :: 0 <= i < |n| ==> x[i] in n;
    assert forall i :: 0 <= i < |m| ==> y[i] in m;
    assert n == x[..|n|] && m == y[..|m|] && a == x[|n| + 1..] && b == y[|m| + 1..];
  }

  // ----- specification -----

  /** The call the last entry with this ID stands for. */
  function BindCalls(calls: seq<ToolCall>, id: Bytes): Option<Bytes> {
    if calls == [] then None else
    var c := calls[|calls| - 1];
    if c.id == id then Some(HashCall(c.name, c.arguments)) else BindCalls(calls[..|calls| - 1], id)
  }

  /** The call that the assistant messages bind an ID to; the last binding counts. */
  function Binding(msgs: seq<Message>, id: Bytes): Option<Bytes> {
    if msgs == [] then None else
    var m := msgs[|msgs| - 1];
    var older := Binding(msgs[..|msgs| - 1], id);
    if m.role == ASSISTANT then Or(BindCalls(m.toolCalls, id), older) else older
  }

  function Or<T>(a: Option<T>, b: Option<T>): Option<T> {
    if a.Some? then a else b
  }

  /** The call that message i is a result of, if it is a tool result with a bound ID. */
  function CallOf(msgs: seq<Message>, i: nat): Option<Bytes>
    requires i < |msgs|
  {
    if msgs[i].role == TOOL && msgs[i].toolCallID != [] then Binding(msgs, msgs[i].toolCallID) else None
  }

  /** Messages i and j are results of the same call with identical output. */
  predicate SameResult(msgs: seq<Message>, i: nat, j: nat)
    requires i < |msgs| && j < |msgs|
  {
    CallOf(msgs, i).Some? && CallOf(msgs, j) == CallOf(msgs, i) && msgs[j].content == msgs[i].content
  }

  predicate Stubbed(msgs: seq<Message>, i: nat)
    requires i < |msgs|
  {
    exists j :: i < j < |msgs| && SameResult(msgs, i, j)
  }

  function DedupeMessage(msgs: seq<Message>, i: nat): Message
    requires i < |msgs|
  {
    if Stubbed(msgs, i) then msgs[i].(content := STUB) else msgs[i]
  }

  /** Every result that a later message repeats replaced by the stub. */
  function DedupeAll(msgs: seq<Message>): (d: seq<Message>)
    ensures |d| == |msgs|
  {
    seq(|msgs|, i requires 0 <= i < |msgs| => DedupeMessage(msgs, i))
  }

  lemma DedupeAllAt(msgs: seq<Message>, i: nat)
    requires i < |msgs|
    ensures DedupeAll(msgs)[i] == DedupeMessage(msgs, i)
  {
  }

  // ----- which call an ID is bound to -----

  /** The j-th call of message i, an assistant message, has this ID. */
  predicate Binds(msgs: seq<Message>, i: int, j: int, id: Bytes) {
    && 0 <= i < |msgs| && msgs[i].role == Ascii("assistant")
    && 0 <= j < |msgs[i].toolCalls| && msgs[i].toolCalls[j].id == id
  }

  /** It does, and no call after it does. */
  ghost predicate BindsLast(msgs: seq<Message>, i: int, j: int, id: Bytes) {
    && Binds(msgs, i, j, id)
    && forall k, l :: Binds(msgs, k, l, id) ==> k < i || (k == i && l <= j)
  }

  /** The hashed form of the call at (i, j). */
  function CallKey(msgs: seq<Message>, i: nat, j: nat): Bytes
    requires i < |msgs| && j < |msgs[i].toolCalls|
  {
    msgs[i].toolCalls[j].name + [0] + msgs[i].toolCalls[j].arguments
  }

  lemma {:induction false} BindCallsSource(calls: seq<ToolCall>, id: Bytes) returns (j: int)
    ensures BindCalls(calls, id).None? ==> j == -1
    ensures BindCalls(calls, id).Some? ==>
              0 <= j < |calls| && calls[j].id == id
              && BindCalls(calls, id).value == calls[j].name + [0] + calls[j].arguments
    ensures forall l :: j < l < |calls| ==> calls[l].id != id
  {
    j := |calls| - 1;
    if calls != [] && calls[j].id != id {
      j := BindCallsSource(calls[..j], id);
    }
  }

  /** The binding of an ID comes from the last assistant call that has it. */
  lemma {:induction false} BindingSource(msgs: seq<Message>, id: Bytes) returns (i: int, j: int)
    ensures Binding(msgs, id).Some? ==> BindsLast(msgs, i, j, id) && Binding(msgs, id).value == CallKey(msgs, i, j)
    ensures Binding(msgs, id).None? ==> forall k, l :: !Binds(msgs, k, l, id)
  {
    i, j := |msgs| - 1, -1;
    if msgs != [] {
      var n := |msgs| - 1;
      var calls := msgs[n].toolCalls;
      j := BindCallsSource(calls, id);
      if msgs[n].role != ASSISTANT || BindCalls(calls, id).None? {
        i, j := BindingSource(msgs[..n], id);
        forall k, l | Binds(msgs, k, l, id) ensures Binds(msgs[..n], k, l, id) {
        }
      }
    }
  }

  /** An ID is bound exactly when an assistant call has it, and then to its last call, among
      parallel calls of one message as well. */
  lemma BindingExact(msgs: seq<Message>, id: Bytes)
    ensures Binding(msgs, id).None? <==> forall k, l :: !Binds(msgs, k, l, id)
    ensures forall i, j :: BindsLast(msgs, i, j, id) ==> Binding(msgs, id) == Some(CallKey(msgs, i, j))
  {
    var i, j := BindingSource(msgs, id);
    forall k, l | BindsLast(msgs, k, l, id) ensures Binding(msgs, id) == Some(CallKey(msgs, k, l)) {
      assert Binds(msgs, k, l, id);
    }
  }

  /** The same in full: a call that no later call of its message and no call of a later
      assistant message shares its ID with is what the ID stands for. */
  lemma LastCallBinds(msgs: seq<Message>, i: nat, j: nat, id: Bytes)
    requires i < |msgs| && msgs[i].role == Ascii("assistant")
    requires j < |msgs[i].toolCalls| && msgs[i].toolCalls[j].id == id
    requires forall l :: j < l < |msgs[i].toolCalls| ==> msgs[i].toolCalls[l].id != id
    requires forall k, l :: i < k < |msgs| && msgs[k].role == Ascii("assistant") && 0 <= l < |msgs[k].toolCalls| ==>
               msgs[k].toolCalls[l].id != id
    ensures Binding(msgs, id) == Some(msgs[i].toolCalls[j].name + [0] + msgs[i].toolCalls[j].arguments)
  {
    BindingExact(msgs, id);
    assert BindsLast(msgs, i, j, id);
  }

  /** An ID that no assistant call has is not bound. */
  lemma UnboundId(msgs: seq<Message>, id: Bytes)
    requires forall k, l :: 0 <= k < |msgs| && msgs[k].role == Ascii("assistant") && 0 <= l < |msgs[k].toolCalls| ==>
               msgs[k].toolCalls[l].id != id
    ensures Binding(msgs, id) == None
  {
    BindingExact(msgs, id);
  }

  /** A message is stubbed exactly when it is a tool result with a non-empty ID that some
      assistant call has, and a later such result has an equal content and an ID whose last
      call has the same hashed form. */
  lemma StubbedExactly(msgs: seq<Message>, i: nat)
    requires i < |msgs|
    ensures Stubbed(msgs, i) <==>
            exists j, a, b, c, d ::
              && i < j < |msgs| && msgs[i].role == msgs[j].role == Ascii("tool")
              && msgs[i].toolCallID != [] && msgs[j].toolCallID != [] && msgs[i].content == msgs[j].content
              && BindsLast(msgs, a, b, msgs[i].toolCallID) && BindsLast(msgs, c, d, msgs[j].toolCallID)
              && CallKey(msgs, a, b) == CallKey(msgs, c, d)
  {
    var a, b := BindingSource(msgs, msgs[i].toolCallID);
    BindingExact(msgs, msgs[i].toolCallID);
    if Stubbed(msgs, i) {
      var j :| i < j < |msgs| && SameResult(msgs, i, j);
      var c, d := BindingSource(msgs, msgs[j].toolCallID);
      assert CallKey(msgs, a, b) == CallKey(msgs, c, d);
    }
    if j, a, b, c, d :|
      && i < j < |msgs| && msgs[i].role == msgs[j].role == Ascii("tool")
      && msgs[i].toolCallID != [] && msgs[j].toolCallID != [] && msgs[i].content == msgs[j].content
      && BindsLast(msgs, a, b, msgs[i].toolCallID) && BindsLast(msgs, c, d, msgs[j].toolCallID)
      && CallKey(msgs, a, b) == CallKey(msgs, c, d)
    {
      BindingExact(msgs, msgs[j].toolCallID);
      assert SameResult(msgs, i, j);
    }
  }

  datatype Entry = Entry(index: nat, toolCallID: Bytes, before: nat, after: nat)

  function EntryFor(msgs: seq<Message>, i: nat): Entry
    requires i < |msgs|
  {
    Entry(i, msgs[i].toolCallID, |msgs[i].content|, |STUB|)
  }

  /** The entries for messages k and up, newest first. */
  function Report(msgs: seq<Message>, k: nat): seq<Entry>
    requires k <= |msgs|
    decreases |msgs| - k
  {
    if k == |msgs| then [] else
    Report(msgs, k + 1) +
    if Stubbed(msgs, k) then [EntryFor(msgs, k)] else []
  }

  // ----- the pass -----

  function Lookup<V>(m: map<Bytes, V>, k: Bytes): Option<V> {
    if k in m then Some(m[k]) else None
  }

  method IndexCalls(msgs: array<Message>) returns (hashByCallID: map<Bytes, Bytes>)
    ensures forall id :: Lookup(hashByCallID, id) == Binding(msgs[..], id)
    ensures forall id :: id in hashByCallID <==> exists i, j :: Binds(msgs[..], i, j, id)
    ensures forall id, i, j :: BindsLast(msgs[..], i, j, id) ==>
              id in hashByCallID && hashByCallID[id] == CallKey(msgs[..], i, j)
  {
    hashByCallID := map[];
    for i := 0 to msgs.Length
      invariant forall id :: Lookup(hashByCallID, id) == Binding(msgs[..i], id)
    {
      var m := msgs[i];
      assert msgs[..i + 1][..i] == msgs[..i];
      if m.role == ASSISTANT {
        for j := 0 to |m.toolCalls|
          invariant forall id :: Lookup(hashByCallID, id) == Or(BindCalls(m.toolCalls[..j], id), Binding(msgs[..i], id))
        {
          var tc := m.toolCalls[j];
          assert m.toolCalls[..j + 1][..j] == m.toolCalls[..j];
          hashByCallID := hashByCallID[tc.id := HashCall(tc.name, tc.arguments)];
        }
        assert m.toolCalls[..|m.toolCalls|] == m.toolCalls;
      }
    }
    assert msgs[..msgs.Length] == msgs[..];
    LookupsExact(hashByCallID, msgs[..]);
  }

  lemma LookupsExact(m: map<Bytes, Bytes>, msgs: seq<Message>)
    requires forall id :: Lookup(m, id) == Binding(msgs, id)
    ensures forall id :: id in m <==> exists i, j :: Binds(msgs, i, j, id)
    ensures forall id, i, j :: BindsLast(msgs, i, j, id) ==> id in m && m[id] == CallKey(msgs, i, j)
  {
    forall id
      ensures id in m <==> exists i, j :: Binds(msgs, i, j, id)
      ensures forall i, j :: BindsLast(msgs, i, j, id) ==> id in m && m[id] == CallKey(msgs, i, j)
    {
      assert Lookup(m, id) == Binding(msgs, id);
      BindingExact(msgs, id);
    }
  }

  predicate Seen(seen: map<Bytes, map<Bytes, bool>>, call: Bytes, content: Bytes) {
    call in seen && content in seen[call] && seen[call][content]
  }

  /** seen holds exactly the call and content pairs of the results from message i on. */
  ghost predicate SeenFrom(seen: map<Bytes, map<Bytes, bool>>, msgs: seq<Message>, i: nat)
    requires i <= |msgs|
  {
    && (forall j :: i <= j < |msgs| && CallOf(msgs, j).Some? ==> Seen(seen, CallOf(msgs, j).value, msgs[j].content))
    && (forall k, c :: Seen(seen, k, c) ==>
          exists j :: i <= j < |msgs| && CallOf(msgs, j) == Some(k) && msgs[j].content == c)
  }

  lemma SeenDecides(seen: map<Bytes, map<Bytes, bool>>, msgs: seq<Message>, i: nat)
    requires i < |msgs| && SeenFrom(seen, msgs, i + 1) && CallOf(msgs, i).Some?
    ensures Stubbed(msgs, i) <==> Seen(seen, CallOf(msgs, i).value, msgs[i].content)
  {
    if Seen(seen, CallOf(msgs, i).value, msgs[i].content) {
      var j :| i + 1 <= j < |msgs| && CallOf(msgs, j) == CallOf(msgs, i) && msgs[j].content == msgs[i].content;
      assert SameResult(msgs, i, j);
    }
  }

  /** Recording the pair of message i in the inner map of its call. */
  lemma SeenGrows(seen: map<Bytes, map<Bytes, bool>>, inner: map<Bytes, bool>, msgs: seq<Message>, i: nat)
    requires i < |msgs| && SeenFrom(seen, msgs, i + 1) && CallOf(msgs, i).Some?
    requires inner == if CallOf(msgs, i).value in seen then seen[CallOf(msgs, i).value] else map[]
    ensures SeenFrom(seen[CallOf(msgs, i).value := inner[msgs[i].content := true]], msgs, i)
  {
    var call := CallOf(msgs, i).value;
    var now := seen[call := inner[msgs[i].content := true]];
    forall k, c | Seen(now, k, c)
      ensures exists j :: i <= j < |msgs| && CallOf(msgs, j) == Some(k) && msgs[j].content == c
    {
      assert Seen(seen, k, c) || (k == call && c == msgs[i].content);
    }
  }

  /** Looks the pair of message i up in the nested map, recording a first sighting. */
  method Sight(m: Message, hashByCallID: map<Bytes, Bytes>, seen: map<Bytes, map<Bytes, bool>>,
               ghost msgs: seq<Message>, ghost i: nat)
    returns (now: map<Bytes, map<Bytes, bool>>, duplicate: bool)
    requires i < |msgs| && m == msgs[i] && SeenFrom(seen, msgs, i + 1)
    requires forall id :: Lookup(hashByCallID, id) == Binding(msgs, id)
    ensures SeenFrom(now, msgs, i)
    ensures duplicate <==> Stubbed(msgs, i)
  {
    if m.role != TOOL || m.toolCallID == [] {
      return seen, false;
    }
    assert Lookup(hashByCallID, m.toolCallID) == CallOf(msgs, i);
    if m.toolCallID !in hashByCallID {
      return seen, false;
    }
    var callHash := hashByCallID[m.toolCallID];
    var contentHash := m.content;
    SeenDecides(seen, msgs, i);
    if callHash !in seen {
      SeenGrows(seen, map[], msgs, i);
      return seen[callHash := map[contentHash := true]], false;
    }
    var seenContent := seen[callHash];
    if contentHash !in seenContent || !seenContent[contentHash] {
      SeenGrows(seen, seenContent, msgs, i);
      return seen[callHash := seenContent[contentHash := true]], false;
    }
    return seen, true;
  }

  /** One message of the reverse walk. */
  method VisitMessage(m: Message, hashByCallID: map<Bytes, Bytes>, seen: map<Bytes, map<Bytes, bool>>, i: nat,
                      ghost msgs: seq<Message>)
    returns (now: map<Bytes, map<Bytes, bool>>, entries: seq<Entry>, next: Message)
    requires i < |msgs| && m == msgs[i] && SeenFrom(seen, msgs, i + 1)
    requires forall id :: Lookup(hashByCallID, id) == Binding(msgs, id)
    ensures SeenFrom(now, msgs, i)
    ensures Report(msgs, i) == Report(msgs, i + 1) + entries
    ensures next == DedupeAll(msgs)[i]
  {
    var duplicate;
    now, duplicate := Sight(m, hashByCallID, seen, msgs, i);
    DedupeAllAt(msgs, i);
    if !duplicate {
      return now, [], m;
    }
    var stub := EncodeString(STUB_TEXT);
    StubIsEncoded();
    next := m.(content := stub);
    entries := [Entry(i, m.toolCallID, |m.content|, |stub|)];
  }

  method DedupeToolResultsWithReport(req: ChatRequest) returns (stubbed: seq<Entry>)
    modifies req.messages
    ensures req.messages[..] == DedupeAll(old(req.messages[..]))
    ensures stubbed == Report(old(req.messages[..]), 0)
  {
    var hashByCallID := IndexCalls(req.messages);
    stubbed := StubRepeats(req, hashByCallID);
  }

  /** The reverse walk over all messages. */
  method StubRepeats(req: ChatRequest, hashByCallID: map<Bytes, Bytes>) returns (stubbed: seq<Entry>)
    requires forall id :: Lookup(hashByCallID, id) == Binding(req.messages[..], id)
    modifies req.messages
    ensures req.messages[..] == DedupeAll(old(req.messages[..]))
    ensures stubbed == Report(old(req.messages[..]), 0)
  {
    ghost var was := req.messages[..];
    ghost var goal := DedupeAll(was);
    var seenContentByCall: map<Bytes, map<Bytes, bool>> := map[];
    stubbed := [];
    for i := req.messages.Length downto 0
      invariant forall j :: 0 <= j < i ==> req.messages[j] == was[j]
      invariant forall j :: i <= j < |was| ==> req.messages[j] == goal[j]
      invariant SeenFrom(seenContentByCall, was, i)
      invariant stubbed == Report(was, i)
    {
      var entries, next;
      seenContentByCall, entries, next := VisitMessage(req.messages[i], hashByCallID, seenContentByCall, i, was);
      req.messages[i] := next;
      stubbed := stubbed + entries;
    }
  }

  // ----- laws -----

  /** The results of one call with one output, up to the newest: each of them but the newest is stubbed. */
  lemma {:induction false} LastOccurrence(msgs: seq<Message>, i: nat) returns (j: nat)
    requires i < |msgs| && CallOf(msgs, i).Some?
    ensures i <= j < |msgs| && SameResult(msgs, i, j) && !Stubbed(msgs, j)
    decreases |msgs| - i
  {
    if Stubbed(msgs, i) {
      var k :| i < k < |msgs| && SameResult(msgs, i, k);
      j := LastOccurrence(msgs, k);
    } else {
      j := i;
    }
  }

  /** Each call and output that occurs keeps its last result and no other. */
  lemma ExactlyLastKept(msgs: seq<Message>, i: nat)
    requires i < |msgs|
    ensures Stubbed(msgs, i) <==> CallOf(msgs, i).Some? && exists j :: i < j < |msgs| && SameResult(msgs, i, j)
    ensures CallOf(msgs, i).Some? ==> exists j :: i <= j < |msgs| && SameResult(msgs, i, j) && !Stubbed(msgs, j)
    ensures forall j, k :: 0 <= j < k < |msgs| && SameResult(msgs, i, j) && SameResult(msgs, i, k) ==> Stubbed(msgs, j)
  {
    if CallOf(msgs, i).Some? {
      var j := LastOccurrence(msgs, i);
    }
    forall j, k | 0 <= j < k < |msgs| && SameResult(msgs, i, j) && SameResult(msgs, i, k) ensures Stubbed(msgs, j) {
      assert SameResult(msgs, j, k);
    }
  }

  predicate Descending(r: seq<Entry>) {
    forall a, b :: 0 <= a < b < |r| ==> r[a].index > r[b].index
  }

  /** The report lists exactly the stubbed messages, newest first. */
  lemma {:induction false} ReportExact(msgs: seq<Message>, k: nat)
    requires k <= |msgs|
    ensures Descending(Report(msgs, k))
    ensures forall e :: e in Report(msgs, k)
              ==> k <= e.index < |msgs| && Stubbed(msgs, e.index) && e == EntryFor(msgs, e.index)
    ensures forall i :: k <= i < |msgs| && Stubbed(msgs, i) ==> exists e :: e in Report(msgs, k) && e.index == i
    decreases |msgs| - k
  {
    if k < |msgs| {
      ReportExact(msgs, k + 1);
      var r := Report(msgs, k + 1);
      assert forall a :: 0 <= a < |r| ==> r[a] in r;
      forall i | k <= i < |msgs| && Stubbed(msgs, i) ensures exists e :: e in Report(msgs, k) && e.index == i {
        if i == k {
          assert EntryFor(msgs, k) in Report(msgs, k);
        } else {
          var e :| e in r && e.index == i;
          assert e in Report(msgs, k);
        }
      }
    }
  }

  /** a and b differ in message contents at most. */
  predicate SameButContent(a: seq<Message>, b: seq<Message>) {
    |a| == |b| && forall i :: 0 <= i < |a| ==> b[i] == a[i].(content := b[i].content)
  }

  lemma {:induction false} BindingIgnoresContent(a: seq<Message>, b: seq<Message>, id: Bytes)
    requires SameButContent(a, b)
    ensures Binding(a, id) == Binding(b, id)
  {
    if a != [] {
      BindingIgnoresContent(a[..|a| - 1], b[..|b| - 1], id);
    }
  }

  lemma CallsSurvive(msgs: seq<Message>, i: nat)
    requires i < |msgs|
    ensures CallOf(DedupeAll(msgs), i) == CallOf(msgs, i)
  {
    assert SameButContent(msgs, DedupeAll(msgs));
    BindingIgnoresContent(msgs, DedupeAll(msgs), msgs[i].toolCallID);
  }

  /** Message i holds the stub after a run: it is stubbed now, or was before. */
  predicate EndsAsStub(msgs: seq<Message>, i: nat)
    requires i < |msgs|
  {
    Stubbed(msgs, i) || msgs[i].content == STUB
  }

  /** Messages i and j are results of one call and both end as the stub. */
  predicate StubsOfOneCall(msgs: seq<Message>, i: nat, j: nat)
    requires i < |msgs| && j < |msgs|
  {
    && CallOf(msgs, i).Some? && CallOf(msgs, j) == CallOf(msgs, i)
    && EndsAsStub(msgs, i) && EndsAsStub(msgs, j)
  }

  lemma EndsAsStubMeans(msgs: seq<Message>, i: nat)
    requires i < |msgs|
    ensures CallOf(DedupeAll(msgs), i) == CallOf(msgs, i)
    ensures DedupeAll(msgs)[i].content == STUB <==> EndsAsStub(msgs, i)
  {
    CallsSurvive(msgs, i);
    DedupeAllAt(msgs, i);
  }

  /** After one run, two results repeat each other only as stubs. */
  lemma RepeatsAreStubs(msgs: seq<Message>, i: nat, j: nat)
    requires i < j < |msgs|
    ensures SameResult(DedupeAll(msgs), i, j) <==> StubsOfOneCall(msgs, i, j)
  {
    EndsAsStubMeans(msgs, i);
    EndsAsStubMeans(msgs, j);
    DedupeAllAt(msgs, i);
    DedupeAllAt(msgs, j);
    if SameResult(DedupeAll(msgs), i, j) && !EndsAsStub(msgs, i) {
      assert SameResult(msgs, i, j);
    }
  }

  lemma OnlyStubsRepeat(msgs: seq<Message>, i: nat)
    requires i < |msgs|
    ensures Stubbed(DedupeAll(msgs), i) <==> exists j :: i < j < |msgs| && StubsOfOneCall(msgs, i, j)
  {
    var d := DedupeAll(msgs);
    forall j | i < j < |msgs| ensures SameResult(d, i, j) <==> StubsOfOneCall(msgs, i, j) {
      RepeatsAreStubs(msgs, i, j);
    }
    if j :| i < j < |msgs| && StubsOfOneCall(msgs, i, j) {
      assert SameResult(d, i, j);
    }
  }

  /** A second run changes nothing, whatever the first was given. */
  lemma DedupeIdempotent(msgs: seq<Message>)
    ensures DedupeAll(DedupeAll(msgs)) == DedupeAll(msgs)
  {
    var d := DedupeAll(msgs);
    forall i | 0 <= i < |d| ensures DedupeMessage(d, i) == d[i] {
      OnlyStubsRepeat(msgs, i);
      EndsAsStubMeans(msgs, i);
    }
  }

  /** Yet the second report is empty exactly when no two results of one call are stubbed or
      were the stub all along. */
  lemma SecondReport(msgs: seq<Message>)
    ensures Report(DedupeAll(msgs), 0) != [] <==> exists i, j :: 0 <= i < j < |msgs| && StubsOfOneCall(msgs, i, j)
  {
    SomeStubbed(DedupeAll(msgs));
    if i: nat :| i < |msgs| && Stubbed(DedupeAll(msgs), i) {
      OnlyStubsRepeat(msgs, i);
    }
    if i, j :| 0 <= i < j < |msgs| && StubsOfOneCall(msgs, i, j) {
      OnlyStubsRepeat(msgs, i);
    }
  }

  /** Three identical results of one call are enough: the first run stubs two of them. */
  lemma ThreeRepeats(msgs: seq<Message>, i: nat, j: nat, k: nat)
    requires i < j < k < |msgs| && SameResult(msgs, i, j) && SameResult(msgs, i, k)
    ensures Report(DedupeAll(msgs), 0) != []
  {
    SecondReport(msgs);
    assert SameResult(msgs, j, k);
    assert Stubbed(msgs, i) && Stubbed(msgs, j);
    assert StubsOfOneCall(msgs, i, j);
  }

  lemma SomeStubbed(msgs: seq<Message>)
    ensures Report(msgs, 0) != [] <==> exists i: nat :: i < |msgs| && Stubbed(msgs, i)
  {
    ReportExact(msgs, 0);
    if Report(msgs, 0) != [] {
      var e := Report(msgs, 0)[0];
      assert e in Report(msgs, 0) && Stubbed(msgs, e.index);
    }
  }
}
