// The request codec field by field (internal/pipeline/types.go:15-279): how each known field of
// arbitrary input is read, when reading fails, and how each known field is written.
module WireFields {
  import opened ByteStrings
  import opened Wire

  // ----- how known fields are read -----

  /** An object without fields, and null, read alike; anything else is an error. */
  lemma OnlyObjects(j: Json)
    ensures FieldsOf(j) == if j.Obj? then Some(j.fields) else if j.Null? then Some(map[]) else None
  {
  }

  lemma {:induction false} ListReads<T>(decode: Json -> Option<T>, js: seq<Json>)
    ensures DecodeAll(decode, js).None? <==> exists i :: 0 <= i < |js| && decode(js[i]).None?
  {
    if DecodeAll(decode, js).Some? {
      assert forall i :: 0 <= i < |js| ==> decode(js[i]) == Some(DecodeAll(decode, js).value[i]);
    }
  }

  /** A tool call is read field by field: a string is its text, null and absent are empty. */
  lemma ToolCallFieldsRead(o: Fields, c: ToolCall)
    requires DecodeToolCall(Obj(o)) == Some(c)
    ensures "id" in o && o["id"].Str? ==> c.id == o["id"].s
    ensures "id" in o ==> o["id"].Str? || o["id"].Null?
    ensures "id" !in o || o["id"].Null? ==> c.id == ""
    ensures "type" in o && o["type"].Str? ==> c.kind == o["type"].s
    ensures "type" in o ==> o["type"].Str? || o["type"].Null?
    ensures "type" !in o || o["type"].Null? ==> c.kind == ""
    ensures forall k :: k in c.extra <==> k in o && k !in {"id", "type", "function"}
    ensures forall k :: k in c.extra ==> c.extra[k] == o[k]
    ensures "function" in o ==> o["function"].Obj? || o["function"].Null?
    ensures "function" !in o || o["function"].Null? ==> c.name == "" && c.arguments == ""
    ensures "function" in o && o["function"].Obj? ==>
              var f := o["function"].fields;
              && (if "name" in f && !f["name"].Null? then f["name"] == Str(c.name) else c.name == "")
              && (if "arguments" in f && !f["arguments"].Null? then f["arguments"] == Str(c.arguments)
                  else c.arguments == "")
  {
  }

  /** The field is there with a JSON type it must not have. */
  predicate Wrong(o: Fields, k: string, right: Json -> bool) {
    k in o && !o[k].Null? && !right(o[k])
  }

  /** It fails exactly when a known field has another JSON type. */
  lemma ToolCallFails(o: Fields)
    ensures DecodeToolCall(Obj(o)).None? <==>
            || Wrong(o, "id", (v: Json) => v.Str?) || Wrong(o, "type", (v: Json) => v.Str?)
            || Wrong(o, "function", (v: Json) => v.Obj?)
            || ("function" in o && o["function"].Obj?
                && (Wrong(o["function"].fields, "name", (v: Json) => v.Str?)
                    || Wrong(o["function"].fields, "arguments", (v: Json) => v.Str?)))
  {
  }

  lemma MessageFieldsRead(o: Fields, m: Message)
    requires DecodeMessage(Obj(o)) == Some(m)
    ensures "role" in o && o["role"].Str? ==> m.role == o["role"].s
    ensures "role" in o ==> o["role"].Str? || o["role"].Null?
    ensures "role" !in o || o["role"].Null? ==> m.role == ""
    ensures "name" in o && o["name"].Str? ==> m.name == o["name"].s
    ensures "name" in o ==> o["name"].Str? || o["name"].Null?
    ensures "name" !in o || o["name"].Null? ==> m.name == ""
    ensures "tool_call_id" in o && o["tool_call_id"].Str? ==> m.toolCallID == o["tool_call_id"].s
    ensures "tool_call_id" in o ==> o["tool_call_id"].Str? || o["tool_call_id"].Null?
    ensures "tool_call_id" !in o || o["tool_call_id"].Null? ==> m.toolCallID == ""
    ensures m.content == if "content" in o then Some(o["content"]) else None
    ensures forall k :: k in m.extra <==> k in o && k !in {"role", "content", "name", "tool_calls", "tool_call_id"}
    ensures forall k :: k in m.extra ==> m.extra[k] == o[k]
    ensures "tool_calls" in o ==> o["tool_calls"].Arr? || o["tool_calls"].Null?
    ensures "tool_calls" in o && o["tool_calls"].Arr? ==>
              |m.toolCalls| == |o["tool_calls"].items|
              && forall i :: 0 <= i < |m.toolCalls| ==> DecodeToolCall(o["tool_calls"].items[i]) == Some(m.toolCalls[i])
    ensures "tool_calls" !in o || o["tool_calls"].Null? ==> m.toolCalls == []
  {
  }

  lemma MessageFails(o: Fields)
    ensures DecodeMessage(Obj(o)).None? <==>
            || Wrong(o, "role", (v: Json) => v.Str?) || Wrong(o, "name", (v: Json) => v.Str?)
            || Wrong(o, "tool_call_id", (v: Json) => v.Str?) || Wrong(o, "tool_calls", (v: Json) => v.Arr?)
            || ("tool_calls" in o && o["tool_calls"].Arr?
                && exists i :: 0 <= i < |o["tool_calls"].items| && DecodeToolCall(o["tool_calls"].items[i]).None?)
  {
    ListReads(DecodeToolCall, if "tool_calls" in o && o["tool_calls"].Arr? then o["tool_calls"].items else []);
  }

  lemma ToolFunctionFieldsRead(o: Fields, f: ToolFunction)
    requires DecodeToolFunction(Obj(o)) == Some(f)
    ensures "name" in o && o["name"].Str? ==> f.name == o["name"].s
    ensures "name" in o ==> o["name"].Str? || o["name"].Null?
    ensures "name" !in o || o["name"].Null? ==> f.name == ""
    ensures "description" in o && o["description"].Str? ==> f.description == o["description"].s
    ensures "description" in o ==> o["description"].Str? || o["description"].Null?
    ensures "description" !in o || o["description"].Null? ==> f.description == ""
    ensures f.parameters == if "parameters" in o then Some(o["parameters"]) else None
    ensures forall k :: k in f.extra <==> k in o && k !in {"name", "description", "parameters"}
    ensures forall k :: k in f.extra ==> f.extra[k] == o[k]
  {
  }

  lemma ToolFunctionFails(o: Fields)
    ensures DecodeToolFunction(Obj(o)).None? <==>
            Wrong(o, "name", (v: Json) => v.Str?) || Wrong(o, "description", (v: Json) => v.Str?)
  {
  }

  lemma ToolFieldsRead(o: Fields, t: Tool)
    requires DecodeTool(Obj(o)) == Some(t)
    ensures "type" in o && o["type"].Str? ==> t.kind == o["type"].s
    ensures "type" in o ==> o["type"].Str? || o["type"].Null?
    ensures "type" !in o || o["type"].Null? ==> t.kind == ""
    ensures forall k :: k in t.extra <==> k in o && k !in {"type", "function"}
    ensures forall k :: k in t.extra ==> t.extra[k] == o[k]
    ensures "function" in o ==> DecodeToolFunction(o["function"]) == Some(t.function_)
    ensures "function" !in o ==> t.function_ == ToolFunction("", "", None, map[])
  {
  }

  lemma ToolFails(o: Fields)
    ensures DecodeTool(Obj(o)).None? <==>
            || Wrong(o, "type", (v: Json) => v.Str?)
            || ("function" in o && DecodeToolFunction(o["function"]).None?)
  {
  }

  lemma RequestFieldsRead(o: Fields, r: Request)
    requires DecodeRequest(Obj(o)) == Some(r)
    ensures "model" in o && o["model"].Str? ==> r.model == o["model"].s
    ensures "model" in o ==> o["model"].Str? || o["model"].Null?
    ensures "model" !in o || o["model"].Null? ==> r.model == ""
    ensures "stream" in o ==> o["stream"].Bool? || o["stream"].Null?
    ensures "messages" in o ==> o["messages"].Arr? || o["messages"].Null?
    ensures "tools" in o ==> o["tools"].Arr? || o["tools"].Null?
    ensures "stream" in o && o["stream"].Bool? ==> r.stream == o["stream"].b
    ensures "stream" !in o || o["stream"].Null? ==> !r.stream
    ensures "messages" in o && o["messages"].Arr? ==>
              r.messages.Some? && |r.messages.value| == |o["messages"].items|
              && forall i :: 0 <= i < |r.messages.value| ==>
                   DecodeMessage(o["messages"].items[i]) == Some(r.messages.value[i])
    ensures "messages" !in o || o["messages"].Null? ==> r.messages == None
    ensures "tools" in o && o["tools"].Arr? ==>
              |r.tools| == |o["tools"].items|
              && forall i :: 0 <= i < |r.tools| ==> DecodeTool(o["tools"].items[i]) == Some(r.tools[i])
    ensures "tools" !in o || o["tools"].Null? ==> r.tools == []
    ensures forall k :: k in r.extra <==> k in o && k !in {"model", "messages", "tools", "stream"}
    ensures forall k :: k in r.extra ==> r.extra[k] == o[k]
  {
  }

  lemma RequestFails(o: Fields)
    ensures DecodeRequest(Obj(o)).None? <==>
            || Wrong(o, "model", (v: Json) => v.Str?) || Wrong(o, "stream", (v: Json) => v.Bool?)
            || Wrong(o, "messages", (v: Json) => v.Arr?) || Wrong(o, "tools", (v: Json) => v.Arr?)
            || ("messages" in o && o["messages"].Arr?
                && exists i :: 0 <= i < |o["messages"].items| && DecodeMessage(o["messages"].items[i]).None?)
            || ("tools" in o && o["tools"].Arr?
                && exists i :: 0 <= i < |o["tools"].items| && DecodeTool(o["tools"].items[i]).None?)
  {
    ListReads(DecodeMessage, if "messages" in o && o["messages"].Arr? then o["messages"].items else []);
    ListReads(DecodeTool, if "tools" in o && o["tools"].Arr? then o["tools"].items else []);
  }

  /** At every level null reads as an object without fields, and other values fail. */
  lemma NullAndOthers(j: Json)
    requires !j.Obj?
    ensures DecodeRequest(j) == if j.Null? then Some(Request("", None, [], false, map[])) else None
    ensures DecodeMessage(j) == if j.Null? then Some(Message("", None, "", [], "", map[])) else None
    ensures DecodeToolCall(j) == if j.Null? then Some(ToolCall("", "", "", "", map[])) else None
    ensures DecodeTool(j) == if j.Null? then Some(Tool("", ToolFunction("", "", None, map[]), map[])) else None
    ensures DecodeToolFunction(j) == if j.Null? then Some(ToolFunction("", "", None, map[])) else None
  {
  }

  // ----- how known fields are written -----

  lemma ToolCallWritten(c: ToolCall)
    ensures EncodeToolCall(c).Obj?
    ensures var o := EncodeToolCall(c).fields;
            && (forall k :: k in o <==> k in c.extra || k in {"id", "type", "function"})
            && (forall k :: k in c.extra ==> o[k] == c.extra[k])
            && ("id" !in c.extra ==> o["id"] == Str(c.id)) && ("type" !in c.extra ==> o["type"] == Str(c.kind))
            && ("function" !in c.extra ==>
                  o["function"] == Obj(map["name" := Str(c.name), "arguments" := Str(c.arguments)]))
  {
  }

  lemma MessageWritten(m: Message)
    ensures EncodeMessage(m).Obj?
    ensures var o := EncodeMessage(m).fields;
            && (forall k :: k in m.extra ==> k in o && o[k] == m.extra[k])
            && (forall k :: k in o ==> k in m.extra || k in {"role", "content", "name", "tool_calls", "tool_call_id"})
            && ("role" !in m.extra ==> "role" in o && o["role"] == Str(m.role))
  {
  }

  lemma MessageOptionsWritten(m: Message)
    ensures EncodeMessage(m).Obj?
    ensures var o := EncodeMessage(m).fields;
            && ("content" !in m.extra ==> (if "content" in o then Some(o["content"]) else None) == m.content)
            && ("name" !in m.extra ==> if m.name == "" then "name" !in o else "name" in o && o["name"] == Str(m.name))
            && ("tool_call_id" !in m.extra ==>
                  if m.toolCallID == "" then "tool_call_id" !in o
                  else "tool_call_id" in o && o["tool_call_id"] == Str(m.toolCallID))
  {
  }

  lemma MessageCallsWritten(m: Message)
    ensures EncodeMessage(m).Obj?
    ensures var o := EncodeMessage(m).fields;
            "tool_calls" !in m.extra ==>
              if m.toolCalls == [] then "tool_calls" !in o
              else "tool_calls" in o && o["tool_calls"].Arr? && |o["tool_calls"].items| == |m.toolCalls|
                   && forall i :: 0 <= i < |m.toolCalls| ==> o["tool_calls"].items[i] == EncodeToolCall(m.toolCalls[i])
  {
  }

  lemma ToolFunctionWritten(f: ToolFunction)
    ensures EncodeToolFunction(f).Obj?
    ensures var o := EncodeToolFunction(f).fields;
            && (forall k :: k in f.extra ==> k in o && o[k] == f.extra[k])
            && (forall k :: k in o ==> k in f.extra || k in {"name", "description", "parameters"})
            && ("name" !in f.extra ==> "name" in o && o["name"] == Str(f.name))
            && ("description" !in f.extra ==>
                  if f.description == "" then "description" !in o
                  else "description" in o && o["description"] == Str(f.description))
            && ("parameters" !in f.extra ==>
                  (if "parameters" in o then Some(o["parameters"]) else None) == f.parameters)
  {
  }

  lemma ToolWritten(t: Tool)
    ensures EncodeTool(t).Obj?
    ensures var o := EncodeTool(t).fields;
            && (forall k :: k in o <==> k in t.extra || k in {"type", "function"})
            && (forall k :: k in t.extra ==> o[k] == t.extra[k])
            && ("type" !in t.extra ==> o["type"] == Str(t.kind))
            && ("function" !in t.extra ==> o["function"] == EncodeToolFunction(t.function_))
  {
  }

  lemma RequestWritten(r: Request)
    ensures EncodeRequest(r).Obj?
    ensures var o := EncodeRequest(r).fields;
            && (forall k :: k in r.extra ==> k in o && o[k] == r.extra[k])
            && (forall k :: k in o ==> k in r.extra || k in {"model", "messages", "tools", "stream"})
            && ("model" !in r.extra ==> "model" in o && o["model"] == Str(r.model))
            && ("stream" !in r.extra ==>
                  if r.stream then "stream" in o && o["stream"] == Bool(true) else "stream" !in o)
    ensures var o := EncodeRequest(r).fields;
            "messages" !in r.extra ==>
              "messages" in o
              && if r.messages.None? then o["messages"] == Null
                 else o["messages"].Arr? && |o["messages"].items| == |r.messages.value|
                      && forall i :: 0 <= i < |r.messages.value| ==>
                           o["messages"].items[i] == EncodeMessage(r.messages.value[i])
    ensures var o := EncodeRequest(r).fields;
            "tools" !in r.extra ==>
              if r.tools == [] then "tools" !in o
              else "tools" in o && o["tools"].Arr? && |o["tools"].items| == |r.tools|
                   && forall i :: 0 <= i < |r.tools| ==> o["tools"].items[i] == EncodeTool(r.tools[i])
  {
  }
}
