// The request the OpenAI-compatible passes rewrite (internal/pipeline/types.go:15-64),
// with message contents as the raw JSON bytes the code keeps.
module Messages {
  import opened ByteStrings

  datatype ToolCall = ToolCall(id: Bytes, kind: Bytes, name: Bytes, arguments: Bytes, extra: map<Bytes, Bytes>)

  datatype Message = Message(
    role: Bytes,
    content: Bytes,
    name: Bytes,
    toolCalls: seq<ToolCall>,
    toolCallID: Bytes,
    extra: map<Bytes, Bytes>)

  datatype Tool = Tool(kind: Bytes, name: Bytes, description: Bytes, parameters: Bytes, extra: map<Bytes, Bytes>)

  const ASSISTANT: Bytes := Ascii("assistant")
  const TOOL: Bytes := Ascii("tool")
  const USER: Bytes := Ascii("user")
  const SYSTEM: Bytes := Ascii("system")

  /** A request whose messages and tools the passes overwrite in place. The tools
      field of the program is a slice: a backing array and a length. */
  class ChatRequest {
    const messages: array<Message>
    const toolStore: array<Tool>
    var toolCount: nat
    // the names that tool_choice forces
    const forced: set<Bytes>

    ghost predicate Valid()
      reads this
    {
      toolCount <= toolStore.Length
    }

    ghost function Tools(): seq<Tool>
      requires Valid()
      reads this, toolStore
    {
      toolStore[..toolCount]
    }

    constructor (messages: array<Message>, tools: array<Tool>, forced: set<Bytes>)
      ensures Valid() && this.messages == messages && toolStore == tools && Tools() == tools[..]
      ensures this.forced == forced
    {
      this.messages := messages;
      this.toolStore := tools;
      this.toolCount := tools.Length;
      this.forced := forced;
    }
  }

  function NamesOf(calls: seq<ToolCall>): seq<Bytes> {
    if calls == [] then [] else NamesOf(calls[..|calls| - 1]) + [calls[|calls| - 1].name]
  }

  /** The names of all tool calls, in message order. */
  function CallNames(msgs: seq<Message>): seq<Bytes> {
    if msgs == [] then [] else CallNames(msgs[..|msgs| - 1]) + NamesOf(msgs[|msgs| - 1].toolCalls)
  }

  // ----- which names are listed -----

  /** Number of tool calls in the first k messages. */
  function CallsBefore(msgs: seq<Message>, k: nat): nat
    requires k <= |msgs|
  {
    if k == 0 then 0 else CallsBefore(msgs, k - 1) + |msgs[k - 1].toolCalls|
  }

  lemma {:induction false} NamesInOrder(calls: seq<ToolCall>)
    ensures |NamesOf(calls)| == |calls|
    ensures forall j :: 0 <= j < |calls| ==> NamesOf(calls)[j] == calls[j].name
  {
    if calls != [] {
      NamesInOrder(calls[..|calls| - 1]);
    }
  }

  lemma {:induction false} CallsBeforeFront(msgs: seq<Message>, n: nat, k: nat)
    requires k <= n <= |msgs|
    ensures CallsBefore(msgs[..n], k) == CallsBefore(msgs, k)
  {
    if k > 0 {
      CallsBeforeFront(msgs, n, k - 1);
    }
  }

  lemma {:induction false} CallNamesCount(msgs: seq<Message>)
    ensures |CallNames(msgs)| == CallsBefore(msgs, |msgs|)
  {
    if msgs != [] {
      var n := |msgs| - 1;
      CallNamesCount(msgs[..n]);
      CallsBeforeFront(msgs, n, n);
      NamesInOrder(msgs[n].toolCalls);
    }
  }

  /** Every tool call of every message is listed, in message order and, inside a message, in
      the order of its calls; with the count above, none is listed twice. */
  lemma {:induction false} CallNamesAt(msgs: seq<Message>, i: nat, j: nat)
    requires i < |msgs| && j < |msgs[i].toolCalls|
    ensures |CallNames(msgs)| == CallsBefore(msgs, |msgs|)
    ensures CallsBefore(msgs, i) + j < |CallNames(msgs)|
    ensures CallNames(msgs)[CallsBefore(msgs, i) + j] == msgs[i].toolCalls[j].name
  {
    var n := |msgs| - 1;
    CallNamesCount(msgs);
    CallNamesCount(msgs[..n]);
    CallsBeforeFront(msgs, n, n);
    NamesInOrder(msgs[n].toolCalls);
    if i < n {
      CallNamesAt(msgs[..n], i, j);
      CallsBeforeFront(msgs, n, i);
    }
  }

  /** Some call in the messages has this name. */
  predicate Called(msgs: seq<Message>, name: Bytes) {
    exists i, j :: 0 <= i < |msgs| && 0 <= j < |msgs[i].toolCalls| && msgs[i].toolCalls[j].name == name
  }

  /** A name is listed exactly when some call of some message has it. */
  lemma {:induction false} CallNamesExact(msgs: seq<Message>, name: Bytes)
    ensures name in CallNames(msgs) <==> Called(msgs, name)
  {
    if msgs != [] {
      var n := |msgs| - 1;
      CallNamesExact(msgs[..n], name);
      NamesInOrder(msgs[n].toolCalls);
      if name in CallNames(msgs[..n]) {
        var i, j :| 0 <= i < n && 0 <= j < |msgs[..n][i].toolCalls| && msgs[..n][i].toolCalls[j].name == name;
        assert msgs[i].toolCalls[j].name == name;
      } else if name in NamesOf(msgs[n].toolCalls) {
        var j :| 0 <= j < |msgs[n].toolCalls| && NamesOf(msgs[n].toolCalls)[j] == name;
        assert msgs[n].toolCalls[j].name == name;
      }
      if i, j :| 0 <= i < |msgs| && 0 <= j < |msgs[i].toolCalls| && msgs[i].toolCalls[j].name == name {
        if i == n {
          assert NamesOf(msgs[n].toolCalls)[j] == name;
        } else {
          assert msgs[..n][i].toolCalls[j].name == name;
        }
      }
    }
  }
}
