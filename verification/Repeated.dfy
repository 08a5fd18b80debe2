// The repeated-call report (internal/pipeline/repeated_tool_calls.go).
module Repeated {
  import opened ByteStrings
  import opened Messages
  import Dedupe

  /** One assistant tool call: the message it is in, its name and its call key. */
  datatype Call = Call(message: nat, name: Bytes, key: Bytes)

  datatype Entry = Entry(name: Bytes, occurrences: nat, firstMessage: nat, lastMessage: nat)

  function CallAt(message: nat, tc: ToolCall): Call {
    Call(message, tc.name, Dedupe.HashCall(tc.name, tc.arguments))
  }

  function CallsIn(message: nat, calls: seq<ToolCall>): seq<Call> {
    if calls == [] then [] else CallsIn(message, calls[..|calls| - 1]) + [CallAt(message, calls[|calls| - 1])]
  }

  /** All assistant tool calls, in message order. */
  function Calls(msgs: seq<Message>): seq<Call> {
    if msgs == [] then [] else
    var m := msgs[|msgs| - 1];
    Calls(msgs[..|msgs| - 1]) + if m.role == ASSISTANT then CallsIn(|msgs| - 1, m.toolCalls) else []
  }

  // ----- quadratic specification -----

  function Positions(calls: seq<Call>, key: Bytes): set<nat> {
    set p: nat | p < |calls| && calls[p].key == key
  }

  predicate IsFirst(calls: seq<Call>, p: nat)
    requires p < |calls|
  {
    forall q :: 0 <= q < p ==> calls[q].key != calls[p].key
  }

  predicate IsLast(calls: seq<Call>, p: nat)
    requires p < |calls|
  {
    forall q :: p < q < |calls| ==> calls[q].key != calls[p].key
  }

  /** e is the report of the call that first appears at p and last appears at l. */
  ghost predicate Reports(calls: seq<Call>, p: nat, l: nat, e: Entry)
    requires p < |calls|
  {
    && IsFirst(calls, p)
    && p <= l < |calls| && calls[l].key == calls[p].key && IsLast(calls, l)
    && e == Entry(calls[p].name, |Positions(calls, calls[p].key)|, calls[p].message, calls[l].message)
  }

  /** firsts lists the first positions of the calls that occur at least twice, in order. */
  ghost predicate RepeatedFirsts(calls: seq<Call>, firsts: seq<nat>) {
    && (forall a, b :: 0 <= a < b < |firsts| ==> firsts[a] < firsts[b])
    && (forall p: nat :: p in firsts <==> p < |calls| && IsFirst(calls, p) && |Positions(calls, calls[p].key)| >= 2)
  }

  /** One entry for each call that occurs at least twice, in order of first appearance. */
  ghost predicate IsReport(calls: seq<Call>, firsts: seq<nat>, out: seq<Entry>) {
    && RepeatedFirsts(calls, firsts)
    && AllReported(calls, firsts, out)
  }

  /** Entry for entry, out reports the calls at the positions firsts. */
  ghost predicate AllReported(calls: seq<Call>, firsts: seq<nat>, out: seq<Entry>) {
    && |out| == |firsts|
    && forall a :: 0 <= a < |out| ==> Reported(calls, firsts[a], out[a])
  }

  lemma ReportedNext(calls: seq<Call>, firsts: seq<nat>, out: seq<Entry>, p: nat, e: Entry)
    requires AllReported(calls, firsts, out) && Reported(calls, p, e)
    ensures AllReported(calls, firsts + [p], out + [e])
  {
  }

  ghost predicate Reported(calls: seq<Call>, p: nat, e: Entry) {
    p < |calls| && exists l :: Reports(calls, p, l, e)
  }

  /** A report in full: ascending first positions of exactly the calls that occur twice or
      more, and for each its name, its number of occurrences, and its first and last message. */
  lemma ReportMeans(calls: seq<Call>, firsts: seq<nat>, out: seq<Entry>)
    requires IsReport(calls, firsts, out)
    ensures forall a, b :: 0 <= a < b < |firsts| ==> firsts[a] < firsts[b]
    ensures forall p: nat :: p in firsts <==>
              p < |calls| && (forall q :: 0 <= q < p ==> calls[q].key != calls[p].key)
              && |set q: nat | q < |calls| && calls[q].key == calls[p].key| >= 2
    ensures |out| == |firsts|
    ensures forall a :: 0 <= a < |out| ==>
              firsts[a] < |calls| && out[a].name == calls[firsts[a]].name
              && out[a].firstMessage == calls[firsts[a]].message
              && out[a].occurrences == |set q: nat | q < |calls| && calls[q].key == calls[firsts[a]].key|
    ensures forall a, l :: 0 <= a < |out| && 0 <= l < |calls| && calls[l].key == calls[firsts[a]].key
                           && (forall q :: l < q < |calls| ==> calls[q].key != calls[firsts[a]].key) ==>
              out[a].lastMessage == calls[l].message
  {
    forall a | 0 <= a < |out|
      ensures firsts[a] < |calls| && out[a].name == calls[firsts[a]].name
      ensures out[a].firstMessage == calls[firsts[a]].message
      ensures out[a].occurrences == |set q: nat | q < |calls| && calls[q].key == calls[firsts[a]].key|
      ensures forall l :: 0 <= l < |calls| && calls[l].key == calls[firsts[a]].key
                          && (forall q :: l < q < |calls| ==> calls[q].key != calls[firsts[a]].key) ==>
                out[a].lastMessage == calls[l].message
    {
      assert Reported(calls, firsts[a], out[a]);
      var k :| Reports(calls, firsts[a], k, out[a]);
      assert Positions(calls, calls[firsts[a]].key) == set q: nat | q < |calls| && calls[q].key == calls[firsts[a]].key;
    }
    forall p: nat | p < |calls|
      ensures Positions(calls, calls[p].key) == set q: nat | q < |calls| && calls[q].key == calls[p].key
    {
    }
  }

  // ----- the running statistics -----

  class Stat {
    const name: Bytes
    var occurrences: nat
    const firstMessage: nat
    var lastMessage: nat

    constructor (name: Bytes, message: nat)
      ensures this.name == name && occurrences == 1 && firstMessage == message && lastMessage == message
    {
      this.name := name;
      this.occurrences := 1;
      this.firstMessage := message;
      this.lastMessage := message;
    }

    function Value(): Entry
      reads this
    {
      Entry(name, occurrences, firstMessage, lastMessage)
    }
  }

  /** What the record of a key holds after the given calls. */
  function Statistic(calls: seq<Call>, key: Bytes): Option<Entry> {
    if calls == [] then None else
    var c := calls[|calls| - 1];
    var before := Statistic(calls[..|calls| - 1], key);
    if c.key != key then before
    else match before
      case None => Some(Entry(c.name, 1, c.message, c.message))
      case Some(e) => Some(e.(occurrences := e.occurrences + 1, lastMessage := c.message))
  }

  lemma PositionsNext(calls: seq<Call>, key: Bytes)
    requires calls != []
    ensures var n := |calls| - 1;
            Positions(calls, key) == Positions(calls[..n], key) + (if calls[n].key == key then {n} else {})
            && n !in Positions(calls[..n], key)
  {
  }

  /** The running record of a key is the report of its calls so far. */
  lemma {:induction false} StatisticExact(calls: seq<Call>, key: Bytes) returns (p: nat, l: nat)
    ensures Statistic(calls, key).None? ==> forall q :: 0 <= q < |calls| ==> calls[q].key != key
    ensures Statistic(calls, key).Some? ==>
              p < |calls| && calls[p].key == key && Reports(calls, p, l, Statistic(calls, key).value)
  {
    p, l := 0, 0;
    if calls != [] {
      var n := |calls| - 1;
      p, l := StatisticExact(calls[..n], key);
      PositionsNext(calls, key);
      if calls[n].key == key {
        l := n;
        if Statistic(calls[..n], key).None? {
          p := n;
          assert Positions(calls[..n], key) == {};
        }
      }
    }
  }

  /** stats holds, for each key, a record of its own with the running statistic. */
  ghost predicate Tracks(stats: map<Bytes, Stat>, calls: seq<Call>)
    reads stats.Values
  {
    && (forall k :: k in stats <==> Statistic(calls, k).Some?)
    && (forall k :: k in stats ==> Some(stats[k].Value()) == Statistic(calls, k))
    && (forall j, k :: j in stats && k in stats && j != k ==> stats[j] != stats[k])
  }

  /** order holds the keys of the calls, each once, by first position. */
  ghost predicate Ordered(order: seq<Bytes>, firsts: seq<nat>, calls: seq<Call>) {
    && |order| == |firsts|
    && (forall a, b :: 0 <= a < b < |firsts| ==> firsts[a] < firsts[b])
    && (forall p: nat :: p in firsts <==> p < |calls| && IsFirst(calls, p))
    && (forall a :: 0 <= a < |order| ==> firsts[a] in firsts && order[a] == calls[firsts[a]].key)
  }

  lemma FirstsStay(calls: seq<Call>, c: Call)
    ensures forall q: nat :: q < |calls| ==>
              (calls + [c])[q] == calls[q] && (IsFirst(calls + [c], q) <==> IsFirst(calls, q))
    ensures IsFirst(calls + [c], |calls|) <==> forall q :: 0 <= q < |calls| ==> calls[q].key != c.key
  {
    var now := calls + [c];
    assert forall q: nat :: q < |calls| ==> now[q] == calls[q];
    assert now[|calls|] == c;
  }

  lemma OrderedSame(order: seq<Bytes>, firsts: seq<nat>, calls: seq<Call>, c: Call)
    requires Ordered(order, firsts, calls) && !IsFirst(calls + [c], |calls|)
    ensures Ordered(order, firsts, calls + [c])
  {
    FirstsStay(calls, c);
  }

  lemma OrderedMore(order: seq<Bytes>, firsts: seq<nat>, calls: seq<Call>, c: Call)
    requires Ordered(order, firsts, calls) && IsFirst(calls + [c], |calls|)
    ensures Ordered(order + [c.key], firsts + [|calls|], calls + [c])
  {
    FirstsStay(calls, c);
    var now := firsts + [|calls|];
    assert forall a :: 0 <= a < |firsts| ==> firsts[a] in firsts && now[a] == firsts[a];
    assert forall p: nat :: p in now <==> p in firsts || p == |calls|;
  }

  lemma OrderedNext(order: seq<Bytes>, firsts: seq<nat>, calls: seq<Call>, c: Call)
    requires Ordered(order, firsts, calls)
    ensures Statistic(calls, c.key).Some? ==> Ordered(order, firsts, calls + [c])
    ensures Statistic(calls, c.key).None? ==> Ordered(order + [c.key], firsts + [|calls|], calls + [c])
  {
    var p, l := StatisticExact(calls, c.key);
    FirstsStay(calls, c);
    if Statistic(calls, c.key).Some? {
      OrderedSame(order, firsts, calls, c);
    } else {
      OrderedMore(order, firsts, calls, c);
    }
  }

  /** Records one call. */
  method Record(stats: map<Bytes, Stat>, order: seq<Bytes>, c: Call, ghost calls: seq<Call>, ghost firsts: seq<nat>)
    returns (stats': map<Bytes, Stat>, order': seq<Bytes>, ghost firsts': seq<nat>)
    requires Tracks(stats, calls) && Ordered(order, firsts, calls)
    modifies stats.Values
    ensures Tracks(stats', calls + [c]) && Ordered(order', firsts', calls + [c])
    ensures forall s :: s in stats'.Values ==> s in stats.Values || fresh(s)
  {
    stats', order', firsts' := stats, order, firsts;
    OrderedNext(order, firsts, calls, c);
    assert (calls + [c])[..|calls|] == calls;
    if c.key !in stats {
      var s := new Stat(c.name, c.message);
      stats' := stats[c.key := s];
      order' := order + [c.key];
      firsts' := firsts + [|calls|];
    } else {
      var s := stats[c.key];
      s.occurrences := s.occurrences + 1;
      s.lastMessage := c.message;
    }
  }

  /** The record of the i-th key in order reports the call that first appears at firsts[i]. */
  lemma RecordReports(stats: map<Bytes, Stat>, order: seq<Bytes>, calls: seq<Call>, firsts: seq<nat>, i: nat)
    requires Tracks(stats, calls) && Ordered(order, firsts, calls) && i < |order|
    ensures order[i] in stats && firsts[i] < |calls| && calls[firsts[i]].key == order[i]
    ensures Reported(calls, firsts[i], stats[order[i]].Value())
    ensures stats[order[i]].occurrences == |Positions(calls, order[i])|
  {
    var p, l := StatisticExact(calls, order[i]);
    assert firsts[i] in firsts;
    assert p == firsts[i];
  }

  lemma FrontPart(firsts: seq<nat>, i: nat)
    requires i < |firsts|
    requires forall a, b :: 0 <= a < b < |firsts| ==> firsts[a] < firsts[b]
    ensures forall p :: p in firsts[..i + 1] <==> p in firsts[..i] || p == firsts[i]
    ensures forall p :: p in firsts[..i] ==> p < firsts[i]
  {
    assert firsts[..i + 1] == firsts[..i] + [firsts[i]];
  }

  /** selected lists those of the given positions whose call occurs at least twice. */
  ghost predicate Selected(selected: seq<nat>, among: seq<nat>, calls: seq<Call>) {
    && (forall a, b :: 0 <= a < b < |selected| ==> selected[a] < selected[b])
    && (forall p: nat :: p in selected <==> p in among && p < |calls| && |Positions(calls, calls[p].key)| >= 2)
  }

  lemma SelectedNext(selected: seq<nat>, firsts: seq<nat>, calls: seq<Call>, i: nat)
    requires i < |firsts| && firsts[i] < |calls|
    requires forall a, b :: 0 <= a < b < |firsts| ==> firsts[a] < firsts[b]
    requires Selected(selected, firsts[..i], calls)
    ensures Selected(if |Positions(calls, calls[firsts[i]].key)| >= 2 then selected + [firsts[i]] else selected,
                     firsts[..i + 1], calls)
  {
    FrontPart(firsts, i);
    assert forall a :: 0 <= a < |selected| ==> selected[a] in selected;
  }

  /** Selects the keys that occur at least twice. */
  method Collect(stats: map<Bytes, Stat>, order: seq<Bytes>, ghost calls: seq<Call>, ghost firsts: seq<nat>)
    returns (out: seq<Entry>)
    requires Tracks(stats, calls) && Ordered(order, firsts, calls)
    ensures exists selected :: IsReport(calls, selected, out)
  {
    out := [];
    ghost var selected: seq<nat> := [];
    for i := 0 to |order|
      invariant Selected(selected, firsts[..i], calls)
      invariant AllReported(calls, selected, out)
    {
      RecordReports(stats, order, calls, firsts, i);
      SelectedNext(selected, firsts, calls, i);
      var s := stats[order[i]];
      if s.occurrences < 2 {
        continue;
      }
      ReportedNext(calls, selected, out, firsts[i], s.Value());
      out := out + [Entry(s.name, s.occurrences, s.firstMessage, s.lastMessage)];
      selected := selected + [firsts[i]];
    }
    assert firsts[..|order|] == firsts;
    assert IsReport(calls, selected, out);
  }

  /** Records the calls of one assistant message. */
  method RecordAll(i: nat, tcs: seq<ToolCall>, stats: map<Bytes, Stat>, order: seq<Bytes>,
                   ghost calls: seq<Call>, ghost firsts: seq<nat>)
    returns (stats': map<Bytes, Stat>, order': seq<Bytes>, ghost firsts': seq<nat>)
    requires Tracks(stats, calls) && Ordered(order, firsts, calls)
    modifies stats.Values
    ensures Tracks(stats', calls + CallsIn(i, tcs)) && Ordered(order', firsts', calls + CallsIn(i, tcs))
    ensures forall s :: s in stats'.Values ==> s in stats.Values || fresh(s)
  {
    stats', order', firsts' := stats, order, firsts;
    assert calls + [] == calls;
    for j := 0 to |tcs|
      invariant Tracks(stats', calls + CallsIn(i, tcs[..j])) && Ordered(order', firsts', calls + CallsIn(i, tcs[..j]))
      invariant forall s :: s in stats'.Values ==> s in stats.Values || fresh(s)
    {
      assert tcs[..j + 1][..j] == tcs[..j];
      ConcatAssociates(calls, CallsIn(i, tcs[..j]), [CallAt(i, tcs[j])]);
      stats', order', firsts' := Record(stats', order', CallAt(i, tcs[j]), calls + CallsIn(i, tcs[..j]), firsts');
    }
    assert tcs[..|tcs|] == tcs;
  }

  /** The report of a request is the quadratic one. */
  method RepeatedToolCalls(msgs: array<Message>) returns (out: seq<Entry>)
    ensures exists firsts :: IsReport(Calls(msgs[..]), firsts, out)
  {
    var stats: map<Bytes, Stat> := map[];
    var order: seq<Bytes> := [];
    ghost var firsts: seq<nat> := [];
    for i := 0 to msgs.Length
      invariant Tracks(stats, Calls(msgs[..i])) && Ordered(order, firsts, Calls(msgs[..i]))
      invariant fresh(stats.Values)
    {
      var m := msgs[i];
      assert msgs[..i + 1][..i] == msgs[..i];
      if m.role != ASSISTANT {
        assert Calls(msgs[..i]) + [] == Calls(msgs[..i]);
        continue;
      }
      stats, order, firsts := RecordAll(i, m.toolCalls, stats, order, Calls(msgs[..i]), firsts);
    }
    assert msgs[..msgs.Length] == msgs[..];
    ghost var all := msgs[..];
    out := Collect(stats, order, Calls(all), firsts);
    assert msgs[..] == all;
  }

  // ----- laws -----

  /** Two ascending sequences with the same elements are the same. */
  lemma {:induction false} AscendingUnique(f: seq<nat>, g: seq<nat>)
    requires forall a, b :: 0 <= a < b < |f| ==> f[a] < f[b]
    requires forall a, b :: 0 <= a < b < |g| ==> g[a] < g[b]
    requires forall p :: p in f <==> p in g
    ensures f == g
  {
    assert g != [] ==> g[0] in g;
    if f != [] {
      assert f[0] in f && f[0] in g;
      assert g[0] in g && g[0] in f;
      assert f[0] == g[0];
      assert f == [f[0]] + f[1..] && g == [g[0]] + g[1..];
      assert f[0] !in f[1..] && g[0] !in g[1..];
      forall p ensures p in f[1..] <==> p in g[1..] {
        assert p in f[1..] <==> p in f && p != f[0];
        assert p in g[1..] <==> p in g && p != g[0];
      }
      AscendingUnique(f[1..], g[1..]);
    }
  }

  /** The calls of a request determine its report. */
  lemma ReportUnique(calls: seq<Call>, f: seq<nat>, a: seq<Entry>, g: seq<nat>, b: seq<Entry>)
    requires IsReport(calls, f, a) && IsReport(calls, g, b)
    ensures f == g && a == b
  {
    AscendingUnique(f, g);
    forall i | 0 <= i < |a| ensures a[i] == b[i] {
      assert Reported(calls, f[i], a[i]) && Reported(calls, f[i], b[i]);
      var l :| Reports(calls, f[i], l, a[i]);
      var k :| Reports(calls, f[i], k, b[i]);
      assert l == k;
    }
  }

  lemma {:induction false} CallsInMessage(i: nat, tcs: seq<ToolCall>)
    ensures forall c :: c in CallsIn(i, tcs) ==> c.message == i
  {
    if tcs != [] {
      CallsInMessage(i, tcs[..|tcs| - 1]);
    }
  }

  /** Calls are listed by message, so a first and a last position carry the least and the greatest message index. */
  lemma {:induction false} CallsAscend(msgs: seq<Message>)
    ensures forall p :: 0 <= p < |Calls(msgs)| ==> Calls(msgs)[p].message < |msgs|
    ensures forall p, q :: 0 <= p <= q < |Calls(msgs)| ==> Calls(msgs)[p].message <= Calls(msgs)[q].message
  {
    if msgs != [] {
      var n := |msgs| - 1;
      CallsAscend(msgs[..n]);
      CallsInMessage(n, msgs[n].toolCalls);
      var more := if msgs[n].role == ASSISTANT then CallsIn(n, msgs[n].toolCalls) else [];
      assert forall p :: 0 <= p < |more| ==> more[p] in more;
    }
  }

  // ----- which calls are listed -----

  /** Number of calls in the assistant messages among the first k. */
  function CallsBefore(msgs: seq<Message>, k: nat): nat
    requires k <= |msgs|
  {
    if k == 0 then 0
    else CallsBefore(msgs, k - 1) + if msgs[k - 1].role == Ascii("assistant") then |msgs[k - 1].toolCalls| else 0
  }

  lemma {:induction false} CallsInAt(message: nat, calls: seq<ToolCall>)
    ensures |CallsIn(message, calls)| == |calls|
    ensures forall j :: 0 <= j < |calls| ==>
              CallsIn(message, calls)[j] == Call(message, calls[j].name, calls[j].name + [0] + calls[j].arguments)
  {
    if calls != [] {
      CallsInAt(message, calls[..|calls| - 1]);
    }
  }

  lemma {:induction false} CallsBeforeFront(msgs: seq<Message>, n: nat, k: nat)
    requires k <= n <= |msgs|
    ensures CallsBefore(msgs[..n], k) == CallsBefore(msgs, k)
  {
    if k > 0 {
      CallsBeforeFront(msgs, n, k - 1);
    }
  }

  lemma {:induction false} CallsCount(msgs: seq<Message>)
    ensures |Calls(msgs)| == CallsBefore(msgs, |msgs|)
  {
    if msgs != [] {
      var n := |msgs| - 1;
      CallsCount(msgs[..n]);
      CallsBeforeFront(msgs, n, n);
      CallsInAt(n, msgs[n].toolCalls);
    }
  }

  /** Every call of every assistant message is listed, in order, with its message, name and
      hashed form; with the count above, none is listed twice and no others are. */
  lemma {:induction false} CallsAt(msgs: seq<Message>, i: nat, j: nat)
    requires i < |msgs| && msgs[i].role == Ascii("assistant") && j < |msgs[i].toolCalls|
    ensures |Calls(msgs)| == CallsBefore(msgs, |msgs|)
    ensures CallsBefore(msgs, i) + j < |Calls(msgs)|
    ensures var c := msgs[i].toolCalls[j];
            Calls(msgs)[CallsBefore(msgs, i) + j] == Call(i, c.name, c.name + [0] + c.arguments)
  {
    var n := |msgs| - 1;
    CallsCount(msgs);
    CallsCount(msgs[..n]);
    CallsBeforeFront(msgs, n, n);
    CallsInAt(n, msgs[n].toolCalls);
    if i < n {
      CallsAt(msgs[..n], i, j);
      CallsBeforeFront(msgs, n, i);
    }
  }
}
