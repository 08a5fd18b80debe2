// Reading and writing requests with unknown fields passed through
// (internal/pipeline/types.go:15-279). JSON values are trees; an object's keys are
// distinct and matched exactly.
module Wire {
  import opened ByteStrings

  datatype Json =
    | Null
    | Bool(b: bool)
    | Number(digits: string)
    | Str(s: string)
    | Arr(items: seq<Json>)
    | Obj(fields: map<string, Json>)

  type Fields = map<string, Json>

  datatype ToolCall = ToolCall(id: string, kind: string, name: string, arguments: string, extra: Fields)

  // an absent raw value is None
  datatype Message = Message(
    role: string,
    content: Option<Json>,
    name: string,
    toolCalls: seq<ToolCall>,
    toolCallID: string,
    extra: Fields)

  datatype ToolFunction = ToolFunction(name: string, description: string, parameters: Option<Json>, extra: Fields)

  datatype Tool = Tool(kind: string, function_: ToolFunction, extra: Fields)

  // messages is None for a nil slice, which is written as null
  datatype Request = Request(
    model: string,
    messages: Option<seq<Message>>,
    tools: seq<Tool>,
    stream: bool,
    extra: Fields)

  const REQUEST_FIELDS: set<string> := {"model", "messages", "tools", "stream"}
  const MESSAGE_FIELDS: set<string> := {"role", "content", "name", "tool_calls", "tool_call_id"}
  const TOOL_CALL_FIELDS: set<string> := {"id", "type", "function"}
  const TOOL_FIELDS: set<string> := {"type", "function"}
  const TOOL_FUNCTION_FIELDS: set<string> := {"name", "description", "parameters"}

  // ----- the two loops shared by all types -----

  function Unknown(raw: Fields, known: set<string>): Fields {
    map k | k in raw && k !in known :: raw[k]
  }

  /** Collects the unknown fields of an object one by one, in no particular order. */
  method FillExtra(raw: Fields, known: set<string>) returns (extra: Fields)
    ensures extra == Unknown(raw, known)
  {
    extra := map[];
    var rest := raw.Keys;
    while rest != {}
      invariant rest <= raw.Keys
      invariant extra == map k | k in raw && k !in rest && k !in known :: raw[k]
      decreases |rest|
    {
      var k :| k in rest;
      if k !in known {
        extra := extra[k := raw[k]];
      }
      rest := rest - {k};
    }
  }

  /** Lays passed-through fields over the known ones, one by one, in no particular order. */
  method Overlay(known: Fields, extra: Fields) returns (out: Fields)
    ensures out == known + extra
  {
    out := known;
    var rest := extra.Keys;
    while rest != {}
      invariant rest <= extra.Keys
      invariant out == known + map k | k in extra && k !in rest :: extra[k]
      decreases |rest|
    {
      var k :| k in rest;
      out := out[k := extra[k]];
      rest := rest - {k};
    }
  }

  // ----- fields -----

  /** The fields of an object; null reads as an object without fields. */
  function FieldsOf(j: Json): Option<Fields> {
    match j
    case Obj(fields) => Some(fields)
    case Null => Some(map[])
    case _ => None
  }

  /** A string field; absent and null leave it empty. */
  function StrField(o: Fields, k: string): Option<string> {
    if k !in o || o[k].Null? then Some("") else if o[k].Str? then Some(o[k].s) else None
  }

  function BoolField(o: Fields, k: string): Option<bool> {
    if k !in o || o[k].Null? then Some(false) else if o[k].Bool? then Some(o[k].b) else None
  }

  /** A raw field is kept as it is, null included. */
  function RawField(o: Fields, k: string): Option<Json> {
    if k in o then Some(o[k]) else None
  }

  /** A list field; absent and null are a nil slice. */
  function ListField(o: Fields, k: string): Option<Option<seq<Json>>> {
    if k !in o || o[k].Null? then Some(None) else if o[k].Arr? then Some(Some(o[k].items)) else None
  }

  /** The elements of a list; a nil slice has none. */
  function ListOf<T>(xs: Option<seq<T>>): seq<T> {
    if xs.Some? then xs.value else []
  }

  function StrIf(k: string, s: string): Fields {
    if s == "" then map[] else map[k := Str(s)]
  }

  function RawIf(k: string, v: Option<Json>): Fields {
    if v.None? then map[] else map[k := v.value]
  }

  function EncodeAll<T>(encode: T -> Json, xs: seq<T>): seq<Json> {
    seq(|xs|, i requires 0 <= i < |xs| => encode(xs[i]))
  }

  /** All elements of a list, or an error if one of them fails. */
  function DecodeAll<T>(decode: Json -> Option<T>, js: seq<Json>): (r: Option<seq<T>>)
    ensures r.Some? ==> |r.value| == |js| && forall i :: 0 <= i < |js| ==> decode(js[i]) == Some(r.value[i])
    ensures r.None? ==> exists i :: 0 <= i < |js| && decode(js[i]).None?
  {
    if js == [] then Some([]) else
    match (DecodeAll(decode, js[..|js| - 1]), decode(js[|js| - 1]))
    case (Some(front), Some(last)) => Some(front + [last])
    case _ => None
  }

  // ----- the five types -----

  function KnownToolCall(c: ToolCall): Fields {
    map["id" := Str(c.id), "type" := Str(c.kind),
        "function" := Obj(map["name" := Str(c.name), "arguments" := Str(c.arguments)])]
  }

  function EncodeToolCall(c: ToolCall): Json {
    Obj(KnownToolCall(c) + c.extra)
  }

  /** The known fields of a tool call. */
  function ToolCallAlias(o: Fields): Option<ToolCall> {
    var f := if "function" in o then FieldsOf(o["function"]) else Some(map[]);
    if f.None? then None else
    match (StrField(o, "id"), StrField(o, "type"), StrField(f.value, "name"), StrField(f.value, "arguments"))
    case (Some(id), Some(kind), Some(name), Some(arguments)) => Some(ToolCall(id, kind, name, arguments, map[]))
    case _ => None
  }

  function DecodeToolCall(j: Json): Option<ToolCall> {
    match FieldsOf(j)
    case None => None
    case Some(o) =>
      match ToolCallAlias(o)
      case None => None
      case Some(c) => Some(c.(extra := Unknown(o, TOOL_CALL_FIELDS)))
  }

  function KnownMessage(m: Message): Fields {
    map["role" := Str(m.role)] + RawIf("content", m.content) + StrIf("name", m.name)
    + (if m.toolCalls == [] then map[] else map["tool_calls" := Arr(EncodeAll(EncodeToolCall, m.toolCalls))])
    + StrIf("tool_call_id", m.toolCallID)
  }

  /** What the list of tool calls is read back as. */
  function CallItems(m: Message): Option<seq<Json>> {
    if m.toolCalls == [] then None else Some(EncodeAll(EncodeToolCall, m.toolCalls))
  }

  function EncodeMessage(m: Message): Json {
    Obj(KnownMessage(m) + m.extra)
  }

  /** The known fields of a message. */
  function MessageAlias(o: Fields): Option<Message> {
    match (StrField(o, "role"), StrField(o, "name"), ListField(o, "tool_calls"), StrField(o, "tool_call_id"))
    case (Some(role), Some(name), Some(items), Some(toolCallID)) =>
      (match DecodeAll(DecodeToolCall, ListOf(items))
       case Some(calls) => Some(Message(role, RawField(o, "content"), name, calls, toolCallID, map[]))
       case None => None)
    case _ => None
  }

  function DecodeMessage(j: Json): Option<Message> {
    match FieldsOf(j)
    case None => None
    case Some(o) =>
      match MessageAlias(o)
      case None => None
      case Some(m) => Some(m.(extra := Unknown(o, MESSAGE_FIELDS)))
  }

  function KnownToolFunction(f: ToolFunction): Fields {
    map["name" := Str(f.name)] + StrIf("description", f.description) + RawIf("parameters", f.parameters)
  }

  function EncodeToolFunction(f: ToolFunction): Json {
    Obj(KnownToolFunction(f) + f.extra)
  }

  /** The known fields of a tool function. */
  function ToolFunctionAlias(o: Fields): Option<ToolFunction> {
    match (StrField(o, "name"), StrField(o, "description"))
    case (Some(name), Some(description)) => Some(ToolFunction(name, description, RawField(o, "parameters"), map[]))
    case _ => None
  }

  function DecodeToolFunction(j: Json): Option<ToolFunction> {
    match FieldsOf(j)
    case None => None
    case Some(o) =>
      match ToolFunctionAlias(o)
      case None => None
      case Some(f) => Some(f.(extra := Unknown(o, TOOL_FUNCTION_FIELDS)))
  }

  function KnownTool(t: Tool): Fields {
    map["type" := Str(t.kind), "function" := EncodeToolFunction(t.function_)]
  }

  function EncodeTool(t: Tool): Json {
    Obj(KnownTool(t) + t.extra)
  }

  /** The value of a tool's function field; absent reads as an empty function. */
  function FunctionField(o: Fields): Json {
    if "function" in o then o["function"] else Null
  }

  /** The known fields of a tool. */
  function ToolAlias(o: Fields): Option<Tool> {
    match (StrField(o, "type"), DecodeToolFunction(FunctionField(o)))
    case (Some(kind), Some(f)) => Some(Tool(kind, f, map[]))
    case _ => None
  }

  function DecodeTool(j: Json): Option<Tool> {
    match FieldsOf(j)
    case None => None
    case Some(o) =>
      match ToolAlias(o)
      case None => None
      case Some(t) => Some(t.(extra := Unknown(o, TOOL_FIELDS)))
  }

  function KnownRequest(r: Request): Fields {
    map["model" := Str(r.model),
        "messages" := if r.messages.None? then Null else Arr(EncodeAll(EncodeMessage, r.messages.value))]
    + (if r.tools == [] then map[] else map["tools" := Arr(EncodeAll(EncodeTool, r.tools))])
    + (if r.stream then map["stream" := Bool(true)] else map[])
  }

  /** What the lists of a request are read back as. */
  function MessageItems(r: Request): Option<seq<Json>> {
    if r.messages.None? then None else Some(EncodeAll(EncodeMessage, r.messages.value))
  }

  function ToolItems(r: Request): Option<seq<Json>> {
    if r.tools == [] then None else Some(EncodeAll(EncodeTool, r.tools))
  }

  function EncodeRequest(r: Request): Json {
    Obj(KnownRequest(r) + r.extra)
  }

  /** The known fields of a request. */
  function RequestAlias(o: Fields): Option<Request> {
    match (StrField(o, "model"), ListField(o, "messages"), ListField(o, "tools"), BoolField(o, "stream"))
    case (Some(model), Some(messages), Some(tools), Some(stream)) =>
      (match (DecodeAll(DecodeMessage, ListOf(messages)), DecodeAll(DecodeTool, ListOf(tools)))
       case (Some(ms), Some(ts)) => Some(Request(model, if messages.Some? then Some(ms) else None, ts, stream, map[]))
       case _ => None)
    case _ => None
  }

  function DecodeRequest(j: Json): Option<Request> {
    match FieldsOf(j)
    case None => None
    case Some(o) =>
      match RequestAlias(o)
      case None => None
      case Some(r) => Some(r.(extra := Unknown(o, REQUEST_FIELDS)))
  }

  // ----- round trip -----

  predicate ToolCallOk(c: ToolCall) {
    c.extra.Keys !! TOOL_CALL_FIELDS
  }

  predicate MessageOk(m: Message) {
    m.extra.Keys !! MESSAGE_FIELDS && forall c :: c in m.toolCalls ==> ToolCallOk(c)
  }

  predicate ToolFunctionOk(f: ToolFunction) {
    f.extra.Keys !! TOOL_FUNCTION_FIELDS
  }

  predicate ToolOk(t: Tool) {
    t.extra.Keys !! TOOL_FIELDS && ToolFunctionOk(t.function_)
  }

  /** At every level the passed-through fields are disjoint from the known ones. */
  predicate RequestOk(r: Request) {
    && r.extra.Keys !! REQUEST_FIELDS
    && (r.messages.Some? ==> forall m :: m in r.messages.value ==> MessageOk(m))
    && forall t :: t in r.tools ==> ToolOk(t)
  }

  /** Passed-through fields disjoint from the known names are read back, and hide no known field. */
  lemma UnknownOfOverlay(known: Fields, extra: Fields, names: set<string>)
    requires known.Keys <= names && extra.Keys !! names
    ensures Unknown(known + extra, names) == extra
  {
  }

  lemma OverlayReads(known: Fields, extra: Fields, names: set<string>, k: string)
    requires known.Keys <= names && extra.Keys !! names && k in names
    ensures StrField(known + extra, k) == StrField(known, k)
    ensures BoolField(known + extra, k) == BoolField(known, k)
    ensures RawField(known + extra, k) == RawField(known, k)
    ensures ListField(known + extra, k) == ListField(known, k)
  {
  }

  lemma AllRoundTrip<T>(encode: T -> Json, decode: Json -> Option<T>, xs: seq<T>)
    requires forall x :: x in xs ==> decode(encode(x)) == Some(x)
    ensures DecodeAll(decode, EncodeAll(encode, xs)) == Some(xs)
  {
    var js := EncodeAll(encode, xs);
    forall i | 0 <= i < |xs| ensures decode(js[i]) == Some(xs[i]) {
      assert xs[i] in xs;
    }
    var r := DecodeAll(decode, js);
    assert r.Some?;
    forall i | 0 <= i < |xs| ensures r.value[i] == xs[i] {
      assert decode(js[i]) == Some(r.value[i]);
    }
    assert r.value == xs;
  }

  lemma ToolCallRoundTrip(c: ToolCall)
    ensures DecodeToolCall(EncodeToolCall(c)) == Some(c) <==> ToolCallOk(c)
  {
    if ToolCallOk(c) {
      UnknownOfOverlay(KnownToolCall(c), c.extra, TOOL_CALL_FIELDS);
    }
  }

  lemma KnownMessageStrings(m: Message)
    ensures var o := KnownMessage(m);
            && o.Keys <= MESSAGE_FIELDS
            && StrField(o, "role") == Some(m.role) && StrField(o, "name") == Some(m.name)
  {
  }

  lemma KnownMessageReads(m: Message)
    ensures var o := KnownMessage(m);
            && RawField(o, "content") == m.content
            && ListField(o, "tool_calls") == Some(CallItems(m))
            && StrField(o, "tool_call_id") == Some(m.toolCallID)
  {
  }

  lemma MessageReads(m: Message)
    requires m.extra.Keys !! MESSAGE_FIELDS
    ensures var o := KnownMessage(m) + m.extra;
            && Unknown(o, MESSAGE_FIELDS) == m.extra
            && StrField(o, "role") == Some(m.role) && StrField(o, "name") == Some(m.name)
            && RawField(o, "content") == m.content
            && ListField(o, "tool_calls") == Some(CallItems(m))
            && StrField(o, "tool_call_id") == Some(m.toolCallID)
  {
    KnownMessageStrings(m);
    KnownMessageReads(m);
    UnknownOfOverlay(KnownMessage(m), m.extra, MESSAGE_FIELDS);
    forall k | k in MESSAGE_FIELDS
      ensures StrField(KnownMessage(m) + m.extra, k) == StrField(KnownMessage(m), k)
      ensures RawField(KnownMessage(m) + m.extra, k) == RawField(KnownMessage(m), k)
      ensures ListField(KnownMessage(m) + m.extra, k) == ListField(KnownMessage(m), k)
    {
      OverlayReads(KnownMessage(m), m.extra, MESSAGE_FIELDS, k);
    }
  }

  lemma CallsRead(m: Message)
    requires forall c :: c in m.toolCalls ==> ToolCallOk(c)
    ensures DecodeAll(DecodeToolCall, ListOf(CallItems(m))) == Some(m.toolCalls)
  {
    forall c | c in m.toolCalls ensures DecodeToolCall(EncodeToolCall(c)) == Some(c) {
      ToolCallRoundTrip(c);
    }
    AllRoundTrip(EncodeToolCall, DecodeToolCall, m.toolCalls);
  }

  /** Reading an object whose fields are those of m. */
  lemma MessageFromFields(o: Fields, m: Message)
    requires Unknown(o, MESSAGE_FIELDS) == m.extra
    requires StrField(o, "role") == Some(m.role) && StrField(o, "name") == Some(m.name)
    requires RawField(o, "content") == m.content
    requires ListField(o, "tool_calls") == Some(CallItems(m))
    requires StrField(o, "tool_call_id") == Some(m.toolCallID)
    requires forall c :: c in m.toolCalls ==> ToolCallOk(c)
    ensures DecodeMessage(Obj(o)) == Some(m)
  {
    CallsRead(m);
  }

  lemma MessageReadsBack(m: Message)
    requires MessageOk(m)
    ensures DecodeMessage(EncodeMessage(m)) == Some(m)
  {
    MessageReads(m);
    MessageFromFields(KnownMessage(m) + m.extra, m);
  }

  lemma MessageRoundTrip(m: Message)
    ensures DecodeMessage(EncodeMessage(m)) == Some(m) <==> MessageOk(m)
  {
    if MessageOk(m) {
      MessageReadsBack(m);
    }
    if DecodeMessage(EncodeMessage(m)) == Some(m) {
      DecodedMessageOk(EncodeMessage(m));
    }
  }

  lemma ToolFunctionRoundTrip(f: ToolFunction)
    ensures DecodeToolFunction(EncodeToolFunction(f)) == Some(f) <==> ToolFunctionOk(f)
  {
    if ToolFunctionOk(f) {
      UnknownOfOverlay(KnownToolFunction(f), f.extra, TOOL_FUNCTION_FIELDS);
    }
  }

  lemma ToolRoundTrip(t: Tool)
    ensures DecodeTool(EncodeTool(t)) == Some(t) <==> ToolOk(t)
  {
    if ToolOk(t) {
      ToolFunctionRoundTrip(t.function_);
      UnknownOfOverlay(KnownTool(t), t.extra, TOOL_FIELDS);
    }
  }

  lemma KnownRequestReads(r: Request)
    ensures var o := KnownRequest(r);
            && o.Keys <= REQUEST_FIELDS
            && StrField(o, "model") == Some(r.model) && BoolField(o, "stream") == Some(r.stream)
            && ListField(o, "messages") == Some(MessageItems(r))
            && ListField(o, "tools") == Some(ToolItems(r))
  {
  }

  lemma RequestFieldReads(r: Request)
    requires r.extra.Keys !! REQUEST_FIELDS
    ensures var o := KnownRequest(r) + r.extra;
            && Unknown(o, REQUEST_FIELDS) == r.extra
            && StrField(o, "model") == Some(r.model) && BoolField(o, "stream") == Some(r.stream)
            && ListField(o, "messages") == Some(MessageItems(r))
            && ListField(o, "tools") == Some(ToolItems(r))
  {
    KnownRequestReads(r);
    UnknownOfOverlay(KnownRequest(r), r.extra, REQUEST_FIELDS);
    forall k | k in REQUEST_FIELDS
      ensures StrField(KnownRequest(r) + r.extra, k) == StrField(KnownRequest(r), k)
      ensures BoolField(KnownRequest(r) + r.extra, k) == BoolField(KnownRequest(r), k)
      ensures ListField(KnownRequest(r) + r.extra, k) == ListField(KnownRequest(r), k)
    {
      OverlayReads(KnownRequest(r), r.extra, REQUEST_FIELDS, k);
    }
  }

  lemma MessagesRead(ms: seq<Message>)
    requires forall m :: m in ms ==> MessageOk(m)
    ensures DecodeAll(DecodeMessage, EncodeAll(EncodeMessage, ms)) == Some(ms)
  {
    forall m | m in ms ensures DecodeMessage(EncodeMessage(m)) == Some(m) {
      MessageReadsBack(m);
    }
    AllRoundTrip(EncodeMessage, DecodeMessage, ms);
  }

  lemma ToolsRead(ts: seq<Tool>)
    requires forall t :: t in ts ==> ToolOk(t)
    ensures DecodeAll(DecodeTool, EncodeAll(EncodeTool, ts)) == Some(ts)
  {
    forall t | t in ts ensures DecodeTool(EncodeTool(t)) == Some(t) {
      ToolRoundTrip(t);
    }
    AllRoundTrip(EncodeTool, DecodeTool, ts);
  }

  /** Reading an object whose fields are those of r. */
  lemma RequestFromFields(o: Fields, r: Request)
    requires RequestOk(r) && Unknown(o, REQUEST_FIELDS) == r.extra
    requires StrField(o, "model") == Some(r.model) && BoolField(o, "stream") == Some(r.stream)
    requires ListField(o, "messages") == Some(MessageItems(r))
    requires ListField(o, "tools") == Some(ToolItems(r))
    ensures DecodeRequest(Obj(o)) == Some(r)
  {
    if r.messages.Some? {
      MessagesRead(r.messages.value);
    }
    ToolsRead(r.tools);
  }

  lemma RequestReads(r: Request)
    requires RequestOk(r)
    ensures DecodeRequest(EncodeRequest(r)) == Some(r)
  {
    RequestFieldReads(r);
    RequestFromFields(KnownRequest(r) + r.extra, r);
  }

  lemma DecodedMessagesOk(js: seq<Json>, ms: seq<Message>)
    requires DecodeAll(DecodeMessage, js) == Some(ms)
    ensures forall m :: m in ms ==> MessageOk(m)
  {
    forall m | m in ms ensures MessageOk(m) {
      var i :| 0 <= i < |ms| && ms[i] == m;
      DecodedMessageOk(js[i]);
    }
  }

  lemma DecodedToolOk(j: Json)
    requires DecodeTool(j).Some?
    ensures ToolOk(DecodeTool(j).value)
  {
  }

  lemma DecodedToolsOk(js: seq<Json>, ts: seq<Tool>)
    requires DecodeAll(DecodeTool, js) == Some(ts)
    ensures forall t :: t in ts ==> ToolOk(t)
  {
    forall t | t in ts ensures ToolOk(t) {
      var i :| 0 <= i < |ts| && ts[i] == t;
      DecodedToolOk(js[i]);
    }
  }

  /** The parts a decoded request is made of. */
  lemma DecodedParts(j: Json)
    requires DecodeRequest(j).Some?
    ensures var r := DecodeRequest(j).value;
            && DecodeAll(DecodeMessage, ItemsOf(j, "messages")) == Some(ListOf(r.messages))
            && DecodeAll(DecodeTool, ItemsOf(j, "tools")) == Some(r.tools)
  {
  }

  /** Whatever is decoded keeps its passed-through fields apart from the known ones. */
  lemma DecodedOk(j: Json)
    requires DecodeRequest(j).Some?
    ensures RequestOk(DecodeRequest(j).value)
  {
    var r := DecodeRequest(j).value;
    DecodedParts(j);
    DecodedUnknown(j);
    DecodedMessagesOk(ItemsOf(j, "messages"), ListOf(r.messages));
    DecodedToolsOk(ItemsOf(j, "tools"), r.tools);
  }

  lemma DecodedMessageOk(j: Json)
    requires DecodeMessage(j).Some?
    ensures MessageOk(DecodeMessage(j).value)
  {
    var m := DecodeMessage(j).value;
    var js := ListField(FieldsOf(j).value, "tool_calls").value;
    if js.Some? {
      forall c | c in m.toolCalls ensures ToolCallOk(c) {
        var i :| 0 <= i < |m.toolCalls| && m.toolCalls[i] == c;
        assert DecodeToolCall(js.value[i]) == Some(c);
      }
    }
  }

  /** Decoding an encoded request returns it exactly when every Extra is disjoint from the
      known names of its level. */
  lemma RequestRoundTrip(r: Request)
    ensures DecodeRequest(EncodeRequest(r)) == Some(r) <==> RequestOk(r)
  {
    if RequestOk(r) {
      RequestReads(r);
    }
    if DecodeRequest(EncodeRequest(r)) == Some(r) {
      DecodedOk(EncodeRequest(r));
    }
  }

  /** Re-encoding what was decoded is idempotent, and loses nothing that decoding saw. */
  lemma ReencodeIdempotent(j: Json)
    requires DecodeRequest(j).Some?
    ensures var once := EncodeRequest(DecodeRequest(j).value);
            DecodeRequest(once) == DecodeRequest(j) && EncodeRequest(DecodeRequest(once).value) == once
  {
    DecodedOk(j);
    RequestReads(DecodeRequest(j).value);
  }

  // ----- unknown fields -----

  /** y has the same fields outside the known names as x. */
  ghost predicate SameUnknown(x: Json, y: Json, known: set<string>) {
    FieldsOf(x).Some? && FieldsOf(y).Some? && Unknown(FieldsOf(x).value, known) == Unknown(FieldsOf(y).value, known)
  }

  /** The elements of a list field; none when it is absent or null. */
  function ItemsOf(j: Json, k: string): seq<Json> {
    match FieldsOf(j)
    case None => []
    case Some(o) => if ListField(o, k).Some? && ListField(o, k).value.Some? then ListField(o, k).value.value else []
  }

  ghost predicate MessageKept(x: Json, y: Json) {
    && SameUnknown(x, y, MESSAGE_FIELDS)
    && |ItemsOf(x, "tool_calls")| == |ItemsOf(y, "tool_calls")|
    && forall i :: 0 <= i < |ItemsOf(x, "tool_calls")| ==>
         SameUnknown(ItemsOf(x, "tool_calls")[i], ItemsOf(y, "tool_calls")[i], TOOL_CALL_FIELDS)
  }

  ghost predicate ToolKept(x: Json, y: Json) {
    && SameUnknown(x, y, TOOL_FIELDS)
    && SameUnknown(FunctionField(FieldsOf(x).value), FunctionField(FieldsOf(y).value), TOOL_FUNCTION_FIELDS)
  }

  ghost predicate RequestKept(x: Json, y: Json) {
    && SameUnknown(x, y, REQUEST_FIELDS)
    && |ItemsOf(x, "messages")| == |ItemsOf(y, "messages")|
    && (forall i :: 0 <= i < |ItemsOf(x, "messages")| ==>
          MessageKept(ItemsOf(x, "messages")[i], ItemsOf(y, "messages")[i]))
    && |ItemsOf(x, "tools")| == |ItemsOf(y, "tools")|
    && (forall i :: 0 <= i < |ItemsOf(x, "tools")| ==>
          ToolKept(ItemsOf(x, "tools")[i], ItemsOf(y, "tools")[i]))
  }

  lemma ToolCallKept(x: Json, c: ToolCall)
    requires DecodeToolCall(x) == Some(c)
    ensures SameUnknown(x, EncodeToolCall(c), TOOL_CALL_FIELDS)
  {
    UnknownOfOverlay(KnownToolCall(c), c.extra, TOOL_CALL_FIELDS);
  }

  lemma ToolCallsKept(x: Json, m: Message)
    requires DecodeMessage(x) == Some(m)
    ensures |ItemsOf(x, "tool_calls")| == |m.toolCalls|
    ensures forall i :: 0 <= i < |m.toolCalls| ==>
              SameUnknown(ItemsOf(x, "tool_calls")[i], EncodeToolCall(m.toolCalls[i]), TOOL_CALL_FIELDS)
  {
    var cs := ItemsOf(x, "tool_calls");
    assert DecodeAll(DecodeToolCall, cs) == Some(m.toolCalls);
    forall i | 0 <= i < |cs| ensures SameUnknown(cs[i], EncodeToolCall(m.toolCalls[i]), TOOL_CALL_FIELDS) {
      ToolCallKept(cs[i], m.toolCalls[i]);
    }
  }

  lemma MessageIsKept(x: Json, m: Message)
    requires DecodeMessage(x) == Some(m)
    ensures MessageKept(x, EncodeMessage(m))
  {
    ToolCallsKept(x, m);
    MessageReads(m);
    MessageKeptBy(x, KnownMessage(m) + m.extra, m);
  }

  lemma MessageKeptBy(x: Json, o: Fields, m: Message)
    requires FieldsOf(x).Some? && Unknown(FieldsOf(x).value, MESSAGE_FIELDS) == Unknown(o, MESSAGE_FIELDS)
    requires ListField(o, "tool_calls") == Some(CallItems(m))
    requires |ItemsOf(x, "tool_calls")| == |m.toolCalls|
    requires forall i :: 0 <= i < |m.toolCalls| ==>
               SameUnknown(ItemsOf(x, "tool_calls")[i], EncodeToolCall(m.toolCalls[i]), TOOL_CALL_FIELDS)
    ensures MessageKept(x, Obj(o))
  {
    assert ItemsOf(Obj(o), "tool_calls") == EncodeAll(EncodeToolCall, m.toolCalls);
  }

  lemma FunctionKept(x: Json, f: ToolFunction)
    requires DecodeToolFunction(x) == Some(f)
    ensures SameUnknown(x, EncodeToolFunction(f), TOOL_FUNCTION_FIELDS)
  {
    UnknownOfOverlay(KnownToolFunction(f), f.extra, TOOL_FUNCTION_FIELDS);
  }

  lemma ToolIsKept(x: Json, t: Tool)
    requires DecodeTool(x) == Some(t)
    ensures ToolKept(x, EncodeTool(t))
  {
    FunctionKept(FunctionField(FieldsOf(x).value), t.function_);
    UnknownOfOverlay(KnownTool(t), t.extra, TOOL_FIELDS);
    assert FunctionField(KnownTool(t) + t.extra) == EncodeToolFunction(t.function_);
  }

  lemma ListsKept(j: Json, r: Request)
    requires DecodeRequest(j) == Some(r)
    ensures var out := ListOf(r.messages);
            && |ItemsOf(j, "messages")| == |out|
            && forall i :: 0 <= i < |out| ==> MessageKept(ItemsOf(j, "messages")[i], EncodeMessage(out[i]))
    ensures |ItemsOf(j, "tools")| == |r.tools|
    ensures forall i :: 0 <= i < |r.tools| ==> ToolKept(ItemsOf(j, "tools")[i], EncodeTool(r.tools[i]))
  {
    var ms, ts := ItemsOf(j, "messages"), ItemsOf(j, "tools");
    var out := ListOf(r.messages);
    DecodedParts(j);
    forall i | 0 <= i < |ms| ensures MessageKept(ms[i], EncodeMessage(out[i])) {
      MessageIsKept(ms[i], out[i]);
    }
    forall i | 0 <= i < |ts| ensures ToolKept(ts[i], EncodeTool(r.tools[i])) {
      ToolIsKept(ts[i], r.tools[i]);
    }
  }

  lemma ItemsWritten(o: Fields, r: Request)
    requires ListField(o, "messages") == Some(MessageItems(r))
    requires ListField(o, "tools") == Some(ToolItems(r))
    ensures ItemsOf(Obj(o), "messages") == EncodeAll(EncodeMessage, ListOf(r.messages))
    ensures ItemsOf(Obj(o), "tools") == EncodeAll(EncodeTool, r.tools)
  {
  }

  lemma DecodedUnknown(j: Json)
    requires DecodeRequest(j).Some?
    ensures FieldsOf(j).Some? && Unknown(FieldsOf(j).value, REQUEST_FIELDS) == DecodeRequest(j).value.extra
    ensures DecodeRequest(j).value.extra.Keys !! REQUEST_FIELDS
  {
  }

  lemma RequestKeptBy(j: Json, o: Fields, r: Request)
    requires FieldsOf(j).Some? && Unknown(FieldsOf(j).value, REQUEST_FIELDS) == Unknown(o, REQUEST_FIELDS)
    requires var ms := ListOf(r.messages);
             && ItemsOf(Obj(o), "messages") == EncodeAll(EncodeMessage, ms) && |ItemsOf(j, "messages")| == |ms|
             && forall i :: 0 <= i < |ms| ==> MessageKept(ItemsOf(j, "messages")[i], EncodeMessage(ms[i]))
    requires ItemsOf(Obj(o), "tools") == EncodeAll(EncodeTool, r.tools) && |ItemsOf(j, "tools")| == |r.tools|
    requires forall i :: 0 <= i < |r.tools| ==> ToolKept(ItemsOf(j, "tools")[i], EncodeTool(r.tools[i]))
    ensures RequestKept(j, Obj(o))
  {
  }

  /** Reading a request and writing it again keeps every unknown field, unchanged and in
      place, at request, message, tool call, tool and tool function level, and adds none. */
  lemma UnknownFieldsKept(j: Json)
    requires DecodeRequest(j).Some?
    ensures RequestKept(j, EncodeRequest(DecodeRequest(j).value))
  {
    var r := DecodeRequest(j).value;
    DecodedUnknown(j);
    RequestFieldReads(r);
    ListsKept(j, r);
    ItemsWritten(KnownRequest(r) + r.extra, r);
    RequestKeptBy(j, KnownRequest(r) + r.extra, r);
  }

  // ----- the methods on the receivers -----

  class RequestReceiver {
    var value: Request

    constructor (value: Request)
      ensures this.value == value
    {
      this.value := value;
    }

    /** Overwrites the receiver, or leaves it alone on an error. What was read can be
        written without losing or adding an unknown field. */
    method UnmarshalJSON(data: Json) returns (ok: bool)
      modifies this
      ensures ok <==> DecodeRequest(data).Some?
      ensures value == if ok then DecodeRequest(data).value else old(value)
      ensures ok ==> RequestOk(value) && RequestKept(data, EncodeRequest(value))
    {
      var raw := FieldsOf(data);
      if raw.None? {
        return false;
      }
      var tmp := RequestAlias(raw.value);
      if tmp.None? {
        return false;
      }
      value := tmp.value;
      var extra := FillExtra(raw.value, REQUEST_FIELDS);
      value := value.(extra := extra);
      DecodedOk(data);
      UnknownFieldsKept(data);
      return true;
    }

    /** Writes what reads back as the receiver exactly when no passed-through field has a
        known name; passed-through fields are written as they are in any case. */
    method MarshalJSON() returns (out: Json)
      ensures out == EncodeRequest(value)
      ensures RequestOk(value) <==> DecodeRequest(out) == Some(value)
      ensures out.Obj? && forall k :: k in value.extra ==> k in out.fields && out.fields[k] == value.extra[k]
    {
      var fields := Overlay(KnownRequest(value), value.extra);
      out := Obj(fields);
      RequestRoundTrip(value);
    }
  }

  class MessageReceiver {
    var value: Message

    constructor (value: Message)
      ensures this.value == value
    {
      this.value := value;
    }

    /** Overwrites the receiver, or leaves it alone on an error. What was read can be
        written without losing or adding an unknown field. */
    method UnmarshalJSON(data: Json) returns (ok: bool)
      modifies this
      ensures ok <==> DecodeMessage(data).Some?
      ensures value == if ok then DecodeMessage(data).value else old(value)
      ensures ok ==> MessageOk(value) && MessageKept(data, EncodeMessage(value))
    {
      var raw := FieldsOf(data);
      if raw.None? {
        return false;
      }
      var tmp := MessageAlias(raw.value);
      if tmp.None? {
        return false;
      }
      value := tmp.value;
      var extra := FillExtra(raw.value, MESSAGE_FIELDS);
      value := value.(extra := extra);
      DecodedMessageOk(data);
      MessageIsKept(data, value);
      return true;
    }

    /** Writes what reads back as the receiver exactly when no passed-through field has a
        known name; passed-through fields are written as they are in any case. */
    method MarshalJSON() returns (out: Json)
      ensures out == EncodeMessage(value)
      ensures MessageOk(value) <==> DecodeMessage(out) == Some(value)
      ensures out.Obj? && forall k :: k in value.extra ==> k in out.fields && out.fields[k] == value.extra[k]
    {
      var fields := Overlay(KnownMessage(value), value.extra);
      out := Obj(fields);
      MessageRoundTrip(value);
    }
  }

  class ToolCallReceiver {
    var value: ToolCall

    constructor (value: ToolCall)
      ensures this.value == value
    {
      this.value := value;
    }

    /** Overwrites the receiver, or leaves it alone on an error. What was read can be
        written without losing or adding an unknown field. */
    method UnmarshalJSON(data: Json) returns (ok: bool)
      modifies this
      ensures ok <==> DecodeToolCall(data).Some?
      ensures value == if ok then DecodeToolCall(data).value else old(value)
      ensures ok ==> ToolCallOk(value) && SameUnknown(data, EncodeToolCall(value), TOOL_CALL_FIELDS)
    {
      var raw := FieldsOf(data);
      if raw.None? {
        return false;
      }
      var tmp := ToolCallAlias(raw.value);
      if tmp.None? {
        return false;
      }
      value := tmp.value;
      var extra := FillExtra(raw.value, TOOL_CALL_FIELDS);
      value := value.(extra := extra);
      ToolCallKept(data, value);
      return true;
    }

    /** Writes what reads back as the receiver exactly when no passed-through field has a
        known name; passed-through fields are written as they are in any case. */
    method MarshalJSON() returns (out: Json)
      ensures out == EncodeToolCall(value)
      ensures ToolCallOk(value) <==> DecodeToolCall(out) == Some(value)
      ensures out.Obj? && forall k :: k in value.extra ==> k in out.fields && out.fields[k] == value.extra[k]
    {
      var fields := Overlay(KnownToolCall(value), value.extra);
      out := Obj(fields);
      ToolCallRoundTrip(value);
    }
  }

  class ToolReceiver {
    var value: Tool

    constructor (value: Tool)
      ensures this.value == value
    {
      this.value := value;
    }

    /** Overwrites the receiver, or leaves it alone on an error. What was read can be
        written without losing or adding an unknown field. */
    method UnmarshalJSON(data: Json) returns (ok: bool)
      modifies this
      ensures ok <==> DecodeTool(data).Some?
      ensures value == if ok then DecodeTool(data).value else old(value)
      ensures ok ==> ToolOk(value) && ToolKept(data, EncodeTool(value))
    {
      var raw := FieldsOf(data);
      if raw.None? {
        return false;
      }
      var tmp := ToolAlias(raw.value);
      if tmp.None? {
        return false;
      }
      value := tmp.value;
      var extra := FillExtra(raw.value, TOOL_FIELDS);
      value := value.(extra := extra);
      ToolIsKept(data, value);
      return true;
    }

    /** Writes what reads back as the receiver exactly when no passed-through field has a
        known name; passed-through fields are written as they are in any case. */
    method MarshalJSON() returns (out: Json)
      ensures out == EncodeTool(value)
      ensures ToolOk(value) <==> DecodeTool(out) == Some(value)
      ensures out.Obj? && forall k :: k in value.extra ==> k in out.fields && out.fields[k] == value.extra[k]
    {
      var fields := Overlay(KnownTool(value), value.extra);
      out := Obj(fields);
      ToolRoundTrip(value);
    }
  }

  class ToolFunctionReceiver {
    var value: ToolFunction

    constructor (value: ToolFunction)
      ensures this.value == value
    {
      this.value := value;
    }

    /** Overwrites the receiver, or leaves it alone on an error. What was read can be
        written without losing or adding an unknown field. */
    method UnmarshalJSON(data: Json) returns (ok: bool)
      modifies this
      ensures ok <==> DecodeToolFunction(data).Some?
      ensures value == if ok then DecodeToolFunction(data).value else old(value)
      ensures ok ==> ToolFunctionOk(value) && SameUnknown(data, EncodeToolFunction(value), TOOL_FUNCTION_FIELDS)
    {
      var raw := FieldsOf(data);
      if raw.None? {
        return false;
      }
      var tmp := ToolFunctionAlias(raw.value);
      if tmp.None? {
        return false;
      }
      value := tmp.value;
      var extra := FillExtra(raw.value, TOOL_FUNCTION_FIELDS);
      value := value.(extra := extra);
      FunctionKept(data, value);
      return true;
    }

    /** Writes what reads back as the receiver exactly when no passed-through field has a
        known name; passed-through fields are written as they are in any case. */
    method MarshalJSON() returns (out: Json)
      ensures out == EncodeToolFunction(value)
      ensures ToolFunctionOk(value) <==> DecodeToolFunction(out) == Some(value)
      ensures out.Obj? && forall k :: k in value.extra ==> k in out.fields && out.fields[k] == value.extra[k]
    {
      var fields := Overlay(KnownToolFunction(value), value.extra);
      out := Obj(fields);
      ToolFunctionRoundTrip(value);
    }
  }
}
