// dedupe_tool_results over blocks nested in messages (internal/anthropic/dedupe_tool_results.go).
module AnthropicTypes {
  import opened ByteStrings

  datatype Block = Block(
    kind: Bytes,
    text: Bytes,
    id: Bytes,
    name: Bytes,
    input: Bytes,
    toolUseID: Bytes,
    content: Bytes,
    extra: map<Bytes, Bytes>)

  datatype Message = Message(role: Bytes, content: Bytes, extra: map<Bytes, Bytes>)

  /** How block lists are read from and written to raw contents; any pair of functions. */
  datatype BlockCodec = BlockCodec(read: Bytes -> Option<seq<Block>>, write: seq<Block> -> Bytes)

  const TEXT: Bytes := Ascii("text")
  const TOOL_USE: Bytes := Ascii("tool_use")
  const TOOL_RESULT: Bytes := Ascii("tool_result")
}

module AnthropicDedupe {
  import opened ByteStrings
  import opened AnthropicTypes
  import Dedupe
  import Messages

  // ----- specification -----

  /** The call that the last tool_use block with this ID stands for. */
  function BindBlocks(blocks: seq<Block>, id: Bytes): Option<Bytes> {
    if blocks == [] then None else
    var b := blocks[|blocks| - 1];
    if b.kind == TOOL_USE && b.id != [] && b.id == id then Some(Dedupe.HashCall(b.name, b.input))
    else BindBlocks(blocks[..|blocks| - 1], id)
  }

  function Binding(codec: BlockCodec, msgs: seq<Message>, id: Bytes): Option<Bytes> {
    if msgs == [] then None else
    var m := msgs[|msgs| - 1];
    var older := Binding(codec, msgs[..|msgs| - 1], id);
    if m.role == Messages.ASSISTANT && codec.read(m.content).Some?
    then Dedupe.Or(BindBlocks(codec.read(m.content).value, id), older) else older
  }

  /** The blocks of message i that the pass looks at. */
  function UserBlocks(codec: BlockCodec, msgs: seq<Message>, i: nat): seq<Block>
    requires i < |msgs|
  {
    if msgs[i].role == Messages.USER && codec.read(msgs[i].content).Some?
    then codec.read(msgs[i].content).value else []
  }

  /** The call that block j of message i is a result of. */
  function CallAt(codec: BlockCodec, msgs: seq<Message>, i: nat, j: nat): Option<Bytes>
    requires i < |msgs| && j < |UserBlocks(codec, msgs, i)|
  {
    var b := UserBlocks(codec, msgs, i)[j];
    if b.kind == TOOL_RESULT && b.toolUseID != [] then Binding(codec, msgs, b.toolUseID) else None
  }

  /** Block j of message i is a result of this call with this output. */
  predicate Occurs(codec: BlockCodec, msgs: seq<Message>, i: nat, j: nat, call: Bytes, output: Bytes) {
    && i < |msgs| && j < |UserBlocks(codec, msgs, i)|
    && CallAt(codec, msgs, i, j) == Some(call)
    && UserBlocks(codec, msgs, i)[j].content == output
  }

  /** Scan order: newer messages first, blocks of one message forward. */
  predicate ScannedBefore(i: nat, j: nat, k: int, l: nat) {
    i > k || (i == k && j < l)
  }

  ghost predicate Stubbed(codec: BlockCodec, msgs: seq<Message>, i: nat, j: nat)
    requires i < |msgs| && j < |UserBlocks(codec, msgs, i)|
  {
    CallAt(codec, msgs, i, j).Some? &&
    var call, output := CallAt(codec, msgs, i, j).value, UserBlocks(codec, msgs, i)[j].content;
    exists k: nat, l: nat :: Occurs(codec, msgs, k, l, call, output) && ScannedBefore(k, l, i, j)
  }

  // ----- which call an ID is bound to -----

  /** The j-th block of message i, an assistant message with a block list, is a tool_use with
      this ID. */
  predicate Binds(codec: BlockCodec, msgs: seq<Message>, i: int, j: int, id: Bytes) {
    && 0 <= i < |msgs| && msgs[i].role == Ascii("assistant") && codec.read(msgs[i].content).Some?
    && 0 <= j < |codec.read(msgs[i].content).value|
    && var b := codec.read(msgs[i].content).value[j];
       b.kind == Ascii("tool_use") && b.id == id != []
  }

  /** It is, and no block after it is. */
  ghost predicate BindsLast(codec: BlockCodec, msgs: seq<Message>, i: int, j: int, id: Bytes) {
    && Binds(codec, msgs, i, j, id)
    && forall k, l :: Binds(codec, msgs, k, l, id) ==> k < i || (k == i && l <= j)
  }

  /** The hashed form of the tool_use block at (i, j). */
  function UseKey(codec: BlockCodec, msgs: seq<Message>, i: nat, j: nat): Bytes
    requires i < |msgs| && codec.read(msgs[i].content).Some? && j < |codec.read(msgs[i].content).value|
  {
    var b := codec.read(msgs[i].content).value[j];
    b.name + [0] + b.input
  }

  lemma {:induction false} BindBlocksSource(blocks: seq<Block>, id: Bytes) returns (j: int)
    ensures BindBlocks(blocks, id).None? ==> j == -1
    ensures BindBlocks(blocks, id).Some? ==>
              0 <= j < |blocks| && blocks[j].kind == Ascii("tool_use") && blocks[j].id == id != []
              && BindBlocks(blocks, id).value == blocks[j].name + [0] + blocks[j].input
    ensures forall l :: j < l < |blocks| ==> !(blocks[l].kind == Ascii("tool_use") && blocks[l].id == id != [])
  {
    j := |blocks| - 1;
    if blocks != [] && !(blocks[j].kind == TOOL_USE && blocks[j].id == id != []) {
      j := BindBlocksSource(blocks[..j], id);
    }
  }

  /** The binding of an ID comes from the last tool_use block that has it. */
  lemma {:induction false} BindingSource(codec: BlockCodec, msgs: seq<Message>, id: Bytes) returns (i: int, j: int)
    ensures Binding(codec, msgs, id).Some? ==>
              BindsLast(codec, msgs, i, j, id) && Binding(codec, msgs, id).value == UseKey(codec, msgs, i, j)
    ensures Binding(codec, msgs, id).None? ==> forall k, l :: !Binds(codec, msgs, k, l, id)
  {
    i, j := |msgs| - 1, -1;
    if msgs != [] {
      var n := |msgs| - 1;
      var parsed := codec.read(msgs[n].content);
      if parsed.Some? {
        j := BindBlocksSource(parsed.value, id);
      }
      if msgs[n].role != Messages.ASSISTANT || parsed.None? || BindBlocks(parsed.value, id).None? {
        i, j := BindingSource(codec, msgs[..n], id);
        forall k, l | Binds(codec, msgs, k, l, id) ensures Binds(codec, msgs[..n], k, l, id) {
        }
      }
    }
  }

  /** An ID is bound exactly when a tool_use block of an assistant message has it, and then to
      the last such block, among parallel calls of one message as well. */
  lemma BindingExact(codec: BlockCodec, msgs: seq<Message>, id: Bytes)
    ensures Binding(codec, msgs, id).None? <==> forall k, l :: !Binds(codec, msgs, k, l, id)
    ensures forall i, j :: BindsLast(codec, msgs, i, j, id) ==>
              Binding(codec, msgs, id) == Some(UseKey(codec, msgs, i, j))
  {
    var i, j := BindingSource(codec, msgs, id);
    forall k, l | BindsLast(codec, msgs, k, l, id) ensures Binding(codec, msgs, id) == Some(UseKey(codec, msgs, k, l)) {
      assert Binds(codec, msgs, k, l, id);
    }
  }

  /** The same in full, for blocks that are given as they are read. */
  lemma LastUseBinds(codec: BlockCodec, msgs: seq<Message>, i: nat, j: nat, id: Bytes)
    requires i < |msgs| && msgs[i].role == Ascii("assistant") && codec.read(msgs[i].content).Some? && id != []
    requires var blocks := codec.read(msgs[i].content).value;
             && j < |blocks| && blocks[j].kind == Ascii("tool_use") && blocks[j].id == id
             && forall l :: j < l < |blocks| && blocks[l].kind == Ascii("tool_use") ==> blocks[l].id != id
    requires forall k, l :: i < k < |msgs| && msgs[k].role == Ascii("assistant") && codec.read(msgs[k].content).Some?
                            && 0 <= l < |codec.read(msgs[k].content).value|
                            && codec.read(msgs[k].content).value[l].kind == Ascii("tool_use") ==>
               codec.read(msgs[k].content).value[l].id != id
    ensures var b := codec.read(msgs[i].content).value[j];
            Binding(codec, msgs, id) == Some(b.name + [0] + b.input)
  {
    BindingExact(codec, msgs, id);
    assert BindsLast(codec, msgs, i, j, id);
  }

  /** A block is a result of a call with an output exactly when it is a tool_result of a user
      message, its non-empty ID has a last tool_use block, and call and output are theirs. */
  lemma OccursExactly(codec: BlockCodec, msgs: seq<Message>, i: nat, j: nat, call: Bytes, output: Bytes)
    ensures Occurs(codec, msgs, i, j, call, output) <==>
            && i < |msgs| && msgs[i].role == Ascii("user") && codec.read(msgs[i].content).Some?
            && j < |codec.read(msgs[i].content).value|
            && var b := codec.read(msgs[i].content).value[j];
               && b.kind == Ascii("tool_result") && b.toolUseID != [] && b.content == output
               && exists k, l :: BindsLast(codec, msgs, k, l, b.toolUseID) && UseKey(codec, msgs, k, l) == call
  {
    if i < |msgs| && j < |UserBlocks(codec, msgs, i)| {
      var b := UserBlocks(codec, msgs, i)[j];
      var k, l := BindingSource(codec, msgs, b.toolUseID);
      BindingExact(codec, msgs, b.toolUseID);
    }
  }

  /** The first k blocks of message i after the pass. */
  ghost function DedupeBlocks(codec: BlockCodec, msgs: seq<Message>, i: nat, k: nat): (r: seq<Block>)
    requires i < |msgs| && k <= |UserBlocks(codec, msgs, i)|
    ensures |r| == k
  {
    if k == 0 then [] else
    var b := UserBlocks(codec, msgs, i)[k - 1];
    DedupeBlocks(codec, msgs, i, k - 1) + [if Stubbed(codec, msgs, i, k - 1) then b.(content := Dedupe.STUB) else b]
  }

  datatype Entry = Entry(index: nat, toolUseID: Bytes, before: nat, after: nat)

  /** The entries for the first k blocks of message i. */
  ghost function BlockReport(codec: BlockCodec, msgs: seq<Message>, i: nat, k: nat): seq<Entry>
    requires i < |msgs| && k <= |UserBlocks(codec, msgs, i)|
  {
    if k == 0 then [] else
    var b := UserBlocks(codec, msgs, i)[k - 1];
    BlockReport(codec, msgs, i, k - 1)
    + if Stubbed(codec, msgs, i, k - 1) then [Entry(i, b.toolUseID, |b.content|, |Dedupe.STUB|)] else []
  }

  /** A message without a stubbed block is left as it was, others are written back whole. */
  ghost function DedupeMessage(codec: BlockCodec, msgs: seq<Message>, i: nat): Message
    requires i < |msgs|
  {
    var n := |UserBlocks(codec, msgs, i)|;
    if BlockReport(codec, msgs, i, n) == [] then msgs[i]
    else msgs[i].(content := codec.write(DedupeBlocks(codec, msgs, i, n)))
  }

  ghost function DedupeAll(codec: BlockCodec, msgs: seq<Message>): (d: seq<Message>)
    ensures |d| == |msgs|
  {
    seq(|msgs|, i requires 0 <= i < |msgs| => DedupeMessage(codec, msgs, i))
  }

  ghost function Report(codec: BlockCodec, msgs: seq<Message>, k: nat): seq<Entry>
    requires k <= |msgs|
    decreases |msgs| - k
  {
    if k == |msgs| then []
    else Report(codec, msgs, k + 1) + BlockReport(codec, msgs, k, |UserBlocks(codec, msgs, k)|)
  }

  // ----- the pass -----

  method IndexBlocks(codec: BlockCodec, msgs: array<Message>) returns (hashByToolUseID: map<Bytes, Bytes>)
    ensures forall id :: Dedupe.Lookup(hashByToolUseID, id) == Binding(codec, msgs[..], id)
    ensures forall id :: id in hashByToolUseID <==> exists i, j :: Binds(codec, msgs[..], i, j, id)
    ensures forall id, i, j :: BindsLast(codec, msgs[..], i, j, id) ==>
              id in hashByToolUseID && hashByToolUseID[id] == UseKey(codec, msgs[..], i, j)
  {
    hashByToolUseID := map[];
    for i := 0 to msgs.Length
      invariant forall id :: Dedupe.Lookup(hashByToolUseID, id) == Binding(codec, msgs[..i], id)
    {
      var m := msgs[i];
      assert msgs[..i + 1][..i] == msgs[..i];
      if m.role != Messages.ASSISTANT {
        continue;
      }
      var parsed := codec.read(m.content);
      if parsed.None? {
        continue;
      }
      var blocks := parsed.value;
      for j := 0 to |blocks|
        invariant forall id :: Dedupe.Lookup(hashByToolUseID, id)
                                 == Dedupe.Or(BindBlocks(blocks[..j], id), Binding(codec, msgs[..i], id))
      {
        var b := blocks[j];
        assert blocks[..j + 1][..j] == blocks[..j];
        if b.kind == TOOL_USE && b.id != [] {
          hashByToolUseID := hashByToolUseID[b.id := Dedupe.HashCall(b.name, b.input)];
        }
      }
      assert blocks[..|blocks|] == blocks;
    }
    assert msgs[..msgs.Length] == msgs[..];
    LookupsExact(hashByToolUseID, codec, msgs[..]);
  }

  lemma LookupsExact(m: map<Bytes, Bytes>, codec: BlockCodec, msgs: seq<Message>)
    requires forall id :: Dedupe.Lookup(m, id) == Binding(codec, msgs, id)
    ensures forall id :: id in m <==> exists i, j :: Binds(codec, msgs, i, j, id)
    ensures forall id, i, j :: BindsLast(codec, msgs, i, j, id) ==> id in m && m[id] == UseKey(codec, msgs, i, j)
  {
    forall id
      ensures id in m <==> exists i, j :: Binds(codec, msgs, i, j, id)
      ensures forall i, j :: BindsLast(codec, msgs, i, j, id) ==> id in m && m[id] == UseKey(codec, msgs, i, j)
    {
      assert Dedupe.Lookup(m, id) == Binding(codec, msgs, id);
      BindingExact(codec, msgs, id);
    }
  }

  /** seen holds exactly the call and output pairs of the results scanned before (i, j). */
  ghost predicate SeenAt(seen: map<Bytes, map<Bytes, bool>>, codec: BlockCodec, msgs: seq<Message>, i: int, j: nat) {
    forall call, output :: Dedupe.Seen(seen, call, output) <==>
      exists k: nat, l: nat :: Occurs(codec, msgs, k, l, call, output) && ScannedBefore(k, l, i, j)
  }

  /** Recording the pair of block (i, j). */
  lemma SeenGrows(seen: map<Bytes, map<Bytes, bool>>, inner: map<Bytes, bool>, codec: BlockCodec, msgs: seq<Message>,
                  i: nat, j: nat, call: Bytes, output: Bytes)
    requires SeenAt(seen, codec, msgs, i, j) && Occurs(codec, msgs, i, j, call, output)
    requires inner == if call in seen then seen[call] else map[]
    ensures SeenAt(seen[call := inner[output := true]], codec, msgs, i, j + 1)
  {
    var now := seen[call := inner[output := true]];
    forall c, o
      ensures Dedupe.Seen(now, c, o) <==>
              exists k: nat, l: nat :: Occurs(codec, msgs, k, l, c, o) && ScannedBefore(k, l, i, j + 1)
    {
      assert Dedupe.Seen(now, c, o) <==> Dedupe.Seen(seen, c, o) || (c == call && o == output);
      if Dedupe.Seen(seen, c, o) {
        var k: nat, l: nat :| Occurs(codec, msgs, k, l, c, o) && ScannedBefore(k, l, i, j);
        assert ScannedBefore(k, l, i, j + 1);
      } else if c == call && o == output {
        assert ScannedBefore(i, j, i, j + 1);
      } else {
        assert forall k: nat, l: nat | Occurs(codec, msgs, k, l, c, o) ::
            !ScannedBefore(k, l, i, j) && (k != i || l != j);
      }
    }
  }

  /** A block without a bound call adds nothing. */
  lemma SeenStays(seen: map<Bytes, map<Bytes, bool>>, codec: BlockCodec, msgs: seq<Message>, i: nat, j: nat)
    requires SeenAt(seen, codec, msgs, i, j)
    requires forall call, output :: Occurs(codec, msgs, i, j, call, output) ==> Dedupe.Seen(seen, call, output)
    ensures SeenAt(seen, codec, msgs, i, j + 1)
  {
    forall c, o
      ensures Dedupe.Seen(seen, c, o) <==>
              exists k: nat, l: nat :: Occurs(codec, msgs, k, l, c, o) && ScannedBefore(k, l, i, j + 1)
    {
      if Dedupe.Seen(seen, c, o) {
        var k: nat, l: nat :| Occurs(codec, msgs, k, l, c, o) && ScannedBefore(k, l, i, j);
        assert ScannedBefore(k, l, i, j + 1);
      } else {
        assert forall k: nat, l: nat | Occurs(codec, msgs, k, l, c, o) ::
            !ScannedBefore(k, l, i, j) && (k != i || l != j);
      }
    }
  }

  /** The end of a message is the start of the next older one. */
  lemma SeenNextMessage(seen: map<Bytes, map<Bytes, bool>>, codec: BlockCodec, msgs: seq<Message>, i: nat)
    requires i < |msgs| && SeenAt(seen, codec, msgs, i, |UserBlocks(codec, msgs, i)|)
    ensures SeenAt(seen, codec, msgs, i - 1, 0)
  {
    var n := |UserBlocks(codec, msgs, i)|;
    forall k: nat, l: nat, c, o | Occurs(codec, msgs, k, l, c, o)
      ensures ScannedBefore(k, l, i, n) <==> ScannedBefore(k, l, i - 1, 0)
    {
    }
  }

  /** Looks the pair of block (i, j) up in the nested map, recording a first sighting. */
  method Sight(b: Block, hashByToolUseID: map<Bytes, Bytes>, seen: map<Bytes, map<Bytes, bool>>,
               ghost codec: BlockCodec, ghost msgs: seq<Message>, ghost i: nat, ghost j: nat)
    returns (now: map<Bytes, map<Bytes, bool>>, duplicate: bool)
    requires i < |msgs| && j < |UserBlocks(codec, msgs, i)| && b == UserBlocks(codec, msgs, i)[j]
    requires SeenAt(seen, codec, msgs, i, j)
    requires forall id :: Dedupe.Lookup(hashByToolUseID, id) == Binding(codec, msgs, id)
    ensures SeenAt(now, codec, msgs, i, j + 1)
    ensures duplicate <==> Stubbed(codec, msgs, i, j)
  {
    if b.kind != TOOL_RESULT || b.toolUseID == [] {
      SeenStays(seen, codec, msgs, i, j);
      return seen, false;
    }
    assert Dedupe.Lookup(hashByToolUseID, b.toolUseID) == CallAt(codec, msgs, i, j);
    if b.toolUseID !in hashByToolUseID {
      SeenStays(seen, codec, msgs, i, j);
      return seen, false;
    }
    var callHash := hashByToolUseID[b.toolUseID];
    var contentHash := b.content;
    assert Occurs(codec, msgs, i, j, callHash, contentHash);
    assert Stubbed(codec, msgs, i, j) <==> Dedupe.Seen(seen, callHash, contentHash);
    if callHash !in seen {
      SeenGrows(seen, map[], codec, msgs, i, j, callHash, contentHash);
      return seen[callHash := map[contentHash := true]], false;
    }
    var seenContent := seen[callHash];
    if contentHash !in seenContent || !seenContent[contentHash] {
      SeenGrows(seen, seenContent, codec, msgs, i, j, callHash, contentHash);
      return seen[callHash := seenContent[contentHash := true]], false;
    }
    SeenStays(seen, codec, msgs, i, j);
    return seen, true;
  }

  /** The walk over the blocks of one message, stubbing them in place. */
  method DedupeInMessage(blocks: array<Block>, hashByToolUseID: map<Bytes, Bytes>, seen: map<Bytes, map<Bytes, bool>>,
                         i: nat, ghost codec: BlockCodec, ghost msgs: seq<Message>)
    returns (now: map<Bytes, map<Bytes, bool>>, stubbed: seq<Entry>)
    requires i < |msgs| && blocks[..] == UserBlocks(codec, msgs, i)
    requires SeenAt(seen, codec, msgs, i, 0)
    requires forall id :: Dedupe.Lookup(hashByToolUseID, id) == Binding(codec, msgs, id)
    modifies blocks
    ensures SeenAt(now, codec, msgs, i, blocks.Length)
    ensures blocks[..] == DedupeBlocks(codec, msgs, i, blocks.Length)
    ensures stubbed == BlockReport(codec, msgs, i, blocks.Length)
  {
    ghost var was := blocks[..];
    now, stubbed := seen, [];
    for j := 0 to blocks.Length
      invariant blocks[..j] == DedupeBlocks(codec, msgs, i, j)
      invariant blocks[j..] == was[j..]
      invariant SeenAt(now, codec, msgs, i, j)
      invariant stubbed == BlockReport(codec, msgs, i, j)
    {
      var b := blocks[j];
      assert b == was[j..][0];
      var duplicate;
      now, duplicate := Sight(b, hashByToolUseID, now, codec, msgs, i, j);
      if duplicate {
        blocks[j] := b.(content := Dedupe.STUB);
        stubbed := stubbed + [Entry(i, b.toolUseID, |b.content|, |Dedupe.STUB|)];
      }
    }
  }

  /** One message of the reverse walk. */
  method VisitMessage(m: Message, hashByToolUseID: map<Bytes, Bytes>, seen: map<Bytes, map<Bytes, bool>>,
                      i: nat, codec: BlockCodec, ghost msgs: seq<Message>)
    returns (now: map<Bytes, map<Bytes, bool>>, entries: seq<Entry>, next: Message)
    requires i < |msgs| && m == msgs[i] && SeenAt(seen, codec, msgs, i, 0)
    requires forall id :: Dedupe.Lookup(hashByToolUseID, id) == Binding(codec, msgs, id)
    ensures SeenAt(now, codec, msgs, i - 1, 0)
    ensures Report(codec, msgs, i) == Report(codec, msgs, i + 1) + entries
    ensures next == DedupeAll(codec, msgs)[i]
  {
    var parsed := codec.read(m.content);
    if m.role != Messages.USER || parsed.None? {
      SeenNextMessage(seen, codec, msgs, i);
      return seen, [], m;
    }
    var blocks := new Block[|parsed.value|](k requires 0 <= k < |parsed.value| => parsed.value[k]);
    assert blocks[..] == UserBlocks(codec, msgs, i);
    now, entries := DedupeInMessage(blocks, hashByToolUseID, seen, i, codec, msgs);
    SeenNextMessage(now, codec, msgs, i);
    next := if |entries| > 0 then m.(content := codec.write(blocks[..])) else m;
  }

  method DedupeToolResultsWithReport(codec: BlockCodec, messages: array<Message>) returns (stubbed: seq<Entry>)
    modifies messages
    ensures messages[..] == DedupeAll(codec, old(messages[..]))
    ensures stubbed == Report(codec, old(messages[..]), 0)
  {
    var hashByToolUseID := IndexBlocks(codec, messages);
    stubbed := StubRepeats(codec, messages, hashByToolUseID);
  }

  /** The reverse walk over all messages. */
  method StubRepeats(codec: BlockCodec, messages: array<Message>, hashByToolUseID: map<Bytes, Bytes>)
    returns (stubbed: seq<Entry>)
    requires forall id :: Dedupe.Lookup(hashByToolUseID, id) == Binding(codec, messages[..], id)
    modifies messages
    ensures messages[..] == DedupeAll(codec, old(messages[..]))
    ensures stubbed == Report(codec, old(messages[..]), 0)
  {
    ghost var was := messages[..];
    ghost var goal := DedupeAll(codec, was);
    var seenContentByCall: map<Bytes, map<Bytes, bool>> := map[];
    stubbed := [];
    for i := messages.Length downto 0
      invariant forall j :: 0 <= j < i ==> messages[j] == was[j]
      invariant forall j :: i <= j < |was| ==> messages[j] == goal[j]
      invariant SeenAt(seenContentByCall, codec, was, i - 1, 0)
      invariant stubbed == Report(codec, was, i)
    {
      var entries, next;
      seenContentByCall, entries, next := VisitMessage(messages[i], hashByToolUseID, seenContentByCall, i, codec, was);
      messages[i] := next;
      stubbed := stubbed + entries;
    }
  }

  // ----- laws -----

  /** The first-scanned result of a call and output is kept. */
  lemma {:induction false} FirstScanned(codec: BlockCodec, msgs: seq<Message>, i: nat, j: nat, call: Bytes,
                                        output: Bytes)
    returns (k: nat, l: nat)
    requires Occurs(codec, msgs, i, j, call, output)
    ensures Occurs(codec, msgs, k, l, call, output) && !Stubbed(codec, msgs, k, l)
    ensures k > i || (k == i && l <= j)
    decreases |msgs| - i, j
  {
    if Stubbed(codec, msgs, i, j) {
      var a: nat, b: nat :| Occurs(codec, msgs, a, b, call, output) && ScannedBefore(a, b, i, j);
      k, l := FirstScanned(codec, msgs, a, b, call, output);
    } else {
      k, l := i, j;
    }
  }

  /** Each call and output keeps exactly one result: in a later message, or in an
      earlier block of the same message, than every other one. */
  lemma ExactlyFirstScannedKept(codec: BlockCodec, msgs: seq<Message>, i: nat, j: nat, call: Bytes, output: Bytes)
    requires Occurs(codec, msgs, i, j, call, output)
    ensures exists k: nat, l: nat :: Occurs(codec, msgs, k, l, call, output) && !Stubbed(codec, msgs, k, l)
              && forall a: nat, b: nat :: Occurs(codec, msgs, a, b, call, output) && !(a == k && b == l)
                   ==> Stubbed(codec, msgs, a, b) && (k > a || (k == a && l < b))
  {
    var k, l := FirstScanned(codec, msgs, i, j, call, output);
    assert forall a: nat, b: nat :: Occurs(codec, msgs, a, b, call, output) ==> !ScannedBefore(a, b, k, l);
    forall a: nat, b: nat | Occurs(codec, msgs, a, b, call, output) && !(a == k && b == l)
      ensures Stubbed(codec, msgs, a, b) && (k > a || (k == a && l < b))
    {
      assert ScannedBefore(k, l, a, b);
    }
  }

  /** Block (k, l) comes after block (i, j) in the conversation. */
  predicate LaterInDocument(k: nat, l: nat, i: nat, j: nat) {
    k > i || (k == i && l > j)
  }

  /** The stub says that the output appears later. That is true of the kept copy exactly
      when a later message repeats the result. */
  lemma StubTellsTruth(codec: BlockCodec, msgs: seq<Message>, i: nat, j: nat, call: Bytes, output: Bytes)
    requires Occurs(codec, msgs, i, j, call, output) && Stubbed(codec, msgs, i, j)
    ensures (exists k: nat, l: nat :: Occurs(codec, msgs, k, l, call, output) && !Stubbed(codec, msgs, k, l)
                                      && LaterInDocument(k, l, i, j))
            <==> exists k: nat, l: nat :: Occurs(codec, msgs, k, l, call, output) && k > i
  {
    if k: nat, l: nat :| Occurs(codec, msgs, k, l, call, output) && k > i {
      var a, b := FirstScanned(codec, msgs, k, l, call, output);
      assert LaterInDocument(a, b, i, j);
    }
    forall k: nat, l: nat
      | Occurs(codec, msgs, k, l, call, output) && !Stubbed(codec, msgs, k, l) && LaterInDocument(k, l, i, j)
      ensures k > i
    {
      assert k == i ==> ScannedBefore(i, j, k, l);
    }
  }

  const USE: Block := Block(TOOL_USE, [], [1], [7], [], [], [], map[])
  const RESULT: Block := Block(TOOL_RESULT, [], [], [], [], [1], [9], map[])

  /** A codec for two contents: a tool call, and two identical results of it. */
  const TWICE: BlockCodec := BlockCodec(
    (c: Bytes) => if c == [1] then Some([USE]) else if c == [2] then Some([RESULT, RESULT]) else None,
    (blocks: seq<Block>) => [])

  /** An input where it is false: of two identical results in the newest message the second
      is stubbed, and nothing follows it. */
  lemma StubPointsNowhere()
    ensures exists msgs, i: nat, j: nat, call, output ::
              && Occurs(TWICE, msgs, i, j, call, output) && Stubbed(TWICE, msgs, i, j)
              && i == |msgs| - 1 && j == |UserBlocks(TWICE, msgs, i)| - 1
              && forall k: nat, l: nat :: Occurs(TWICE, msgs, k, l, call, output) ==> !LaterInDocument(k, l, i, j)
  {
    var msgs := [Message(Messages.ASSISTANT, [1], map[]), Message(Messages.USER, [2], map[])];
    var call := Dedupe.HashCall([7], []);
    OneCall(msgs);
    assert UserBlocks(TWICE, msgs, 1) == [RESULT, RESULT];
    assert Occurs(TWICE, msgs, 1, 0, call, [9]) && Occurs(TWICE, msgs, 1, 1, call, [9]);
    assert ScannedBefore(1, 0, 1, 1);
    assert Stubbed(TWICE, msgs, 1, 1);
    forall k: nat, l: nat | Occurs(TWICE, msgs, k, l, call, [9]) ensures !LaterInDocument(k, l, 1, 1) {
    }
  }

  lemma OneCall(msgs: seq<Message>)
    requires msgs == [Message(Messages.ASSISTANT, [1], map[]), Message(Messages.USER, [2], map[])]
    ensures Binding(TWICE, msgs, [1]) == Some(Dedupe.HashCall([7], []))
  {
    assert msgs[..1] == [msgs[0]] && msgs[..1][..0] == [];
    assert Messages.USER[0] != Messages.ASSISTANT[0];
    assert BindBlocks([USE], [1]) == Some(Dedupe.HashCall([7], []));
  }

  /** Block by block, only contents change, and only of stubbed results. */
  lemma {:induction false} BlocksKeepTheRest(codec: BlockCodec, msgs: seq<Message>, i: nat, k: nat, j: nat)
    requires i < |msgs| && j < k <= |UserBlocks(codec, msgs, i)|
    ensures var b := UserBlocks(codec, msgs, i)[j];
            DedupeBlocks(codec, msgs, i, k)[j] == if Stubbed(codec, msgs, i, j) then b.(content := Dedupe.STUB) else b
  {
    if j < k - 1 {
      BlocksKeepTheRest(codec, msgs, i, k - 1, j);
    }
  }

  lemma {:induction false} BlockReportEmpty(codec: BlockCodec, msgs: seq<Message>, i: nat, k: nat)
    requires i < |msgs| && k <= |UserBlocks(codec, msgs, i)|
    ensures BlockReport(codec, msgs, i, k) == [] <==> forall j: nat :: j < k ==> !Stubbed(codec, msgs, i, j)
  {
    if k > 0 {
      BlockReportEmpty(codec, msgs, i, k - 1);
    }
  }

  /** A message changes at most in its content, and not at all without a stubbed block;
      with one it is written back with exactly its stubbed blocks replaced. */
  lemma MessageKeepsTheRest(codec: BlockCodec, msgs: seq<Message>, i: nat)
    requires i < |msgs|
    ensures var n := |UserBlocks(codec, msgs, i)|;
            && DedupeAll(codec, msgs)[i] == msgs[i].(content := DedupeAll(codec, msgs)[i].content)
            && ((forall j: nat :: j < n ==> !Stubbed(codec, msgs, i, j)) ==> DedupeAll(codec, msgs)[i] == msgs[i])
            && ((exists j: nat :: j < n && Stubbed(codec, msgs, i, j)) ==>
                  DedupeAll(codec, msgs)[i].content == codec.write(DedupeBlocks(codec, msgs, i, n)))
  {
    BlockReportEmpty(codec, msgs, i, |UserBlocks(codec, msgs, i)|);
  }

  // ----- the report -----

  /** The entry that a stub at (i, j) leaves. */
  ghost function EntryAt(codec: BlockCodec, msgs: seq<Message>, i: nat, j: nat): Entry
    requires i < |msgs| && j < |UserBlocks(codec, msgs, i)|
  {
    var b := UserBlocks(codec, msgs, i)[j];
    Entry(i, b.toolUseID, |b.content|, |Dedupe.STUB|)
  }

  ghost predicate StubbedBlock(codec: BlockCodec, msgs: seq<Message>, i: nat, j: nat) {
    i < |msgs| && j < |UserBlocks(codec, msgs, i)| && Stubbed(codec, msgs, i, j)
  }

  lemma {:induction false} BlockReportExact(codec: BlockCodec, msgs: seq<Message>, i: nat, k: nat)
    requires i < |msgs| && k <= |UserBlocks(codec, msgs, i)|
    ensures forall e :: e in BlockReport(codec, msgs, i, k) ==>
              exists j: nat :: j < k && StubbedBlock(codec, msgs, i, j) && e == EntryAt(codec, msgs, i, j)
    ensures forall j: nat :: j < k && StubbedBlock(codec, msgs, i, j) ==>
              EntryAt(codec, msgs, i, j) in BlockReport(codec, msgs, i, k)
  {
    if k > 0 {
      BlockReportExact(codec, msgs, i, k - 1);
      forall e | e in BlockReport(codec, msgs, i, k)
        ensures exists j: nat :: j < k && StubbedBlock(codec, msgs, i, j) && e == EntryAt(codec, msgs, i, j)
      {
        if e in BlockReport(codec, msgs, i, k - 1) {
          var j: nat :| j < k - 1 && StubbedBlock(codec, msgs, i, j) && e == EntryAt(codec, msgs, i, j);
        } else {
          assert StubbedBlock(codec, msgs, i, k - 1) && e == EntryAt(codec, msgs, i, k - 1);
        }
      }
    }
  }

  ghost predicate NewestFirst(r: seq<Entry>) {
    forall a, b :: 0 <= a < b < |r| ==> r[a].index >= r[b].index
  }

  lemma NewestFirstNext(r: seq<Entry>, more: seq<Entry>, k: nat)
    requires NewestFirst(r) && (forall e :: e in r ==> e.index > k) && (forall e :: e in more ==> e.index == k)
    ensures NewestFirst(r + more)
  {
    assert forall a :: 0 <= a < |r| ==> r[a] in r;
    assert forall a :: 0 <= a < |more| ==> more[a] in more;
  }

  /** The report lists exactly the stubbed blocks, with their ID and both sizes, messages
      newest first. */
  lemma {:induction false} ReportExact(codec: BlockCodec, msgs: seq<Message>, k: nat)
    requires k <= |msgs|
    ensures NewestFirst(Report(codec, msgs, k))
    ensures forall e :: e in Report(codec, msgs, k) ==>
              k <= e.index
              && exists j: nat :: StubbedBlock(codec, msgs, e.index, j) && e == EntryAt(codec, msgs, e.index, j)
    ensures forall i: nat, j: nat :: k <= i && StubbedBlock(codec, msgs, i, j) ==>
              EntryAt(codec, msgs, i, j) in Report(codec, msgs, k)
    decreases |msgs| - k
  {
    if k < |msgs| {
      var n := |UserBlocks(codec, msgs, k)|;
      var r, more := Report(codec, msgs, k + 1), BlockReport(codec, msgs, k, n);
      ReportExact(codec, msgs, k + 1);
      BlockReportExact(codec, msgs, k, n);
      NewestFirstNext(r, more, k);
      forall i: nat, j: nat | k <= i && StubbedBlock(codec, msgs, i, j)
        ensures EntryAt(codec, msgs, i, j) in Report(codec, msgs, k)
      {
        assert if i == k then EntryAt(codec, msgs, i, j) in more else EntryAt(codec, msgs, i, j) in r;
      }
    }
  }
}
