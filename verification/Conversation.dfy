// What the rewriting does over a whole conversation: a client re-sends its history,
// grown, every turn, and each turn is deduplicated and compacted afresh.
module Conversation {
  import opened ByteStrings
  import opened Utf8
  import opened JsonString
  import opened Cleanup
  import opened Messages
  import opened Compact
  import opened CompactLaws
  import opened Pipeline
  import Dedupe
  import Fingerprint
  import ShapeCache

  // ----- the stub is a fixpoint of compaction -----

  lemma StubEnds()
    ensures |Dedupe.STUB_TEXT| == 86 && !White(Dedupe.STUB_TEXT[85])
  {
    var last := Ascii(" in this conversation]");
    assert Dedupe.STUB_TEXT[85] == last[21];
  }

  lemma StubFixed(role: Bytes)
    ensures CompactContent(role, Dedupe.STUB) == Dedupe.STUB
  {
    StubEnds();
    Dedupe.StubIsEncoded();
    var s := Dedupe.STUB_TEXT;
    PlainEncodes(s);
    QuietIsIrreducible(s);
    CleanFixpoint(s);
    CleanIsFixed(role, s);
  }

  // ----- the form a message is forwarded in -----

  datatype Form = Original | Compacted | Stub

  function FormOf(msgs: seq<Message>, i: nat): Form
    requires i < |msgs|
  {
    if Dedupe.Stubbed(msgs, i) then Stub else if i < Cutoff(|msgs|) then Compacted else Original
  }

  function ContentIn(m: Message, f: Form): Bytes {
    match f
    case Original => m.content
    case Compacted => CompactContent(m.role, m.content)
    case Stub => Dedupe.STUB
  }

  /** Every message is forwarded in its form, with nothing but the content changed. */
  lemma ForwardedForm(msgs: seq<Message>, i: nat)
    requires i < |msgs|
    ensures |Forward(msgs)| == |msgs|
    ensures Forward(msgs)[i] == msgs[i].(content := ContentIn(msgs[i], FormOf(msgs, i)))
  {
    StubFixed(msgs[i].role);
    assert Dedupe.DedupeAll(msgs)[i] == Dedupe.DedupeMessage(msgs, i);
  }

  /** The three cases by position: a repeated result becomes the stub, any other message is
      compacted when at least six follow it, and is left alone otherwise. */
  lemma ForwardedExactly(msgs: seq<Message>, i: nat)
    requires i < |msgs|
    ensures |Forward(msgs)| == |msgs|
    ensures Dedupe.Stubbed(msgs, i) ==> Forward(msgs)[i] == msgs[i].(content := Dedupe.STUB)
    ensures !Dedupe.Stubbed(msgs, i) && i + 6 < |msgs| ==> Forward(msgs)[i] == CompactMessage(msgs[i])
    ensures !Dedupe.Stubbed(msgs, i) && i + 6 >= |msgs| ==> Forward(msgs)[i] == msgs[i]
  {
    ForwardedForm(msgs, i);
  }

  predicate AtMost(f: Form, g: Form) {
    f.Original? || (f.Compacted? && !g.Original?) || g.Stub?
  }

  // ----- growing histories -----

  /** IDs that a binds to one call are bound to one call in b, though perhaps another. */
  ghost predicate Together(a: seq<Message>, b: seq<Message>) {
    forall x, y :: x != [] && y != [] && Dedupe.Binding(a, x).Some? && Dedupe.Binding(a, y) == Dedupe.Binding(a, x)
      ==> Dedupe.Binding(b, x).Some? && Dedupe.Binding(b, y) == Dedupe.Binding(b, x)
  }

  /** A grown history: the old messages, and more that separate no IDs of one call. */
  ghost predicate Grows(a: seq<Message>, b: seq<Message>) {
    a <= b && Together(a, b)
  }

  lemma StubStays(a: seq<Message>, b: seq<Message>, i: nat)
    requires Grows(a, b) && i < |a| && Dedupe.Stubbed(a, i)
    ensures Dedupe.Stubbed(b, i)
  {
    var j :| i < j < |a| && Dedupe.SameResult(a, i, j);
    assert b[i] == a[i] && b[j] == a[j];
    assert Dedupe.SameResult(b, i, j);
  }

  /** The form of a message only moves from original to compacted to stub. */
  lemma FormAdvances(a: seq<Message>, b: seq<Message>, i: nat)
    requires Grows(a, b) && i < |a|
    ensures AtMost(FormOf(a, i), FormOf(b, i))
  {
    if Dedupe.Stubbed(a, i) {
      StubStays(a, b, i);
    }
  }

  /** A conversation: the histories of its turns, each grown from the one before. */
  ghost predicate IsConversation(turns: seq<seq<Message>>) {
    forall t :: 0 <= t < |turns| - 1 ==> Grows(turns[t], turns[t + 1])
  }

  lemma {:induction false} GrowsOver(turns: seq<seq<Message>>, t: nat, u: nat)
    requires IsConversation(turns) && t <= u < |turns|
    ensures Grows(turns[t], turns[u])
    decreases u - t
  {
    if t < u {
      GrowsOver(turns, t, u - 1);
      assert Grows(turns[u - 1], turns[u]);
    }
  }

  /** The content that turn t forwards for message i. */
  function ForwardedContent(turns: seq<seq<Message>>, t: nat, i: nat): Bytes
    requires t < |turns| && i < |turns[t]|
  {
    ForwardedForm(turns[t], i);
    Forward(turns[t])[i].content
  }

  /** From turn s on, message i is forwarded in its original form before turn a, compacted
      from a to before b, and as the stub from b on. */
  ghost predicate ThreePhases(turns: seq<seq<Message>>, s: nat, i: nat, a: nat, b: nat)
    requires s < |turns| && i < |turns[s]|
    requires forall t :: s <= t < |turns| ==> i < |turns[t]|
  {
    && s <= a <= b <= |turns|
    && forall t :: s <= t < |turns| ==>
         ForwardedContent(turns, t, i)
           == ContentIn(turns[s][i], if t < a then Original else if t < b then Compacted else Stub)
  }

  /** The first turn from t on whose form is at least f. */
  function FirstAtLeast(turns: seq<seq<Message>>, i: nat, t: nat, f: Form): (r: nat)
    requires t <= |turns| && forall u :: t <= u < |turns| ==> i < |turns[u]|
    ensures t <= r <= |turns|
    ensures forall u :: t <= u < r ==> !AtMost(f, FormOf(turns[u], i))
    ensures r < |turns| ==> AtMost(f, FormOf(turns[r], i))
    decreases |turns| - t
  {
    if t == |turns| || AtMost(f, FormOf(turns[t], i)) then t else FirstAtLeast(turns, i, t + 1, f)
  }

  /** The turns from which a message is compacted, and from which it is a stub. */
  lemma Phases(turns: seq<seq<Message>>, s: nat, i: nat) returns (a: nat, b: nat)
    requires IsConversation(turns) && s < |turns| && i < |turns[s]|
    ensures forall t :: s <= t < |turns| ==> i < |turns[t]|
    ensures ThreePhases(turns, s, i, a, b)
  {
    forall t | s <= t < |turns| ensures Grows(turns[s], turns[t]) && i < |turns[t]| {
      GrowsOver(turns, s, t);
    }
    a := FirstAtLeast(turns, i, s, Compacted);
    b := FirstAtLeast(turns, i, a, Stub);
    forall t | s <= t < |turns|
      ensures ForwardedContent(turns, t, i)
              == ContentIn(turns[s][i], if t < a then Original else if t < b then Compacted else Stub)
    {
      ForwardedForm(turns[t], i);
      assert turns[t][i] == turns[s][i];
      if a <= t {
        GrowsOver(turns, a, t);
        FormAdvances(turns[a], turns[t], i);
      }
      if b <= t {
        GrowsOver(turns, b, t);
        FormAdvances(turns[b], turns[t], i);
      }
    }
  }

  /** Whole-run monotone rewriting: over all turns a message is forwarded as the original, then
      with its compacted content, then with the stub, and nothing else of it ever changes. */
  lemma MonotoneRun(turns: seq<seq<Message>>, s: nat, i: nat) returns (a: nat, b: nat)
    requires IsConversation(turns) && s < |turns| && i < |turns[s]|
    ensures forall t :: s <= t < |turns| ==> i < |turns[t]|
    ensures ThreePhases(turns, s, i, a, b)
    ensures s <= a <= b <= |turns|
    ensures forall t :: s <= t < |turns| ==>
              Forward(turns[t])[i] == turns[s][i].(content :=
                if t < a then turns[s][i].content
                else if t < b then CompactContent(turns[s][i].role, turns[s][i].content)
                else Dedupe.STUB)
  {
    a, b := Phases(turns, s, i);
    forall t | s <= t < |turns|
      ensures Forward(turns[t])[i] == turns[s][i].(content := ForwardedContent(turns, t, i))
    {
      GrowsOver(turns, s, t);
      ForwardedForm(turns[t], i);
      assert turns[t][i] == turns[s][i];
    }
  }

  /** Turn t + 1 forwards message i differently from turn t. */
  predicate ChangesAt(turns: seq<seq<Message>>, i: nat, t: int) {
    0 <= t < |turns| - 1 && i < |turns[t]| && i < |turns[t + 1]|
    && ForwardedContent(turns, t, i) != ForwardedContent(turns, t + 1, i)
  }

  /** The first turn whose history has message i. */
  function FirstPresent(turns: seq<seq<Message>>, i: nat): (s: nat)
    ensures s <= |turns|
    ensures forall t :: 0 <= t < s ==> |turns[t]| <= i
    ensures s < |turns| ==> i < |turns[s]|
  {
    if turns == [] || i < |turns[0]| then 0 else 1 + FirstPresent(turns[1..], i)
  }

  lemma PhaseChange(turns: seq<seq<Message>>, s: nat, i: nat, a: nat, b: nat, t: nat)
    requires s <= t && ChangesAt(turns, i, t) && i < |turns[s]|
    requires forall t :: s <= t < |turns| ==> i < |turns[t]|
    requires ThreePhases(turns, s, i, a, b)
    ensures t + 1 == a || t + 1 == b
  {
  }

  lemma SubsetSize(x: set<int>, y: set<int>)
    requires x <= y
    ensures |x| <= |y|
  {
    assert y == x + (y - x);
  }

  /** The only turns after which a message can be forwarded differently. */
  lemma ChangeTurns(turns: seq<seq<Message>>, i: nat) returns (x: int, y: int)
    requires IsConversation(turns)
    ensures forall t :: ChangesAt(turns, i, t) ==> t == x || t == y
  {
    x, y := -1, -1;
    var s := FirstPresent(turns, i);
    if s < |turns| {
      var a: int, b: int := Phases(turns, s, i);
      x, y := a - 1, b - 1;
      forall t | ChangesAt(turns, i, t) ensures t == x || t == y {
        assert s <= t;
        PhaseChange(turns, s, i, a, b, t);
      }
    }
  }

  /** So the forwarded content of a message changes at most twice in a conversation. */
  lemma AtMostTwoChanges(turns: seq<seq<Message>>, i: nat)
    requires IsConversation(turns)
    ensures |set t | 0 <= t < |turns| && ChangesAt(turns, i, t)| <= 2
  {
    var x, y := ChangeTurns(turns, i);
    SubsetSize(set t | 0 <= t < |turns| && ChangesAt(turns, i, t), {x, y});
  }

  // ----- when do stubs stay? -----

  /** Every stub of a is a stub of b. */
  ghost predicate StubsStay(a: seq<Message>, b: seq<Message>)
    requires a <= b
  {
    forall i: nat :: i < |a| && Dedupe.Stubbed(a, i) ==> Dedupe.Stubbed(b, i)
  }

  predicate OnlyResults(msgs: seq<Message>) {
    forall m :: m in msgs ==> m.role == TOOL
  }

  lemma BindingAppend(msgs: seq<Message>, m: Message, id: Bytes)
    ensures Dedupe.Binding(msgs + [m], id) ==
            if m.role == ASSISTANT then Dedupe.Or(Dedupe.BindCalls(m.toolCalls, id), Dedupe.Binding(msgs, id))
            else Dedupe.Binding(msgs, id)
  {
    assert (msgs + [m])[..|msgs|] == msgs;
  }

  lemma {:induction false} ResultsBindNothing(a: seq<Message>, results: seq<Message>, id: Bytes)
    requires OnlyResults(results)
    ensures Dedupe.Binding(a + results, id) == Dedupe.Binding(a, id)
  {
    if results == [] {
      assert a + results == a;
    } else {
      var front, m := results[..|results| - 1], results[|results| - 1];
      ResultsBindNothing(a, front, id);
      BindingAppend(a + front, m, id);
      assert a + results == a + front + [m] && m in results;
    }
  }

  lemma {:induction false} BindingOfConcat(a: seq<Message>, c: seq<Message>, more: seq<Message>, id: Bytes)
    requires Dedupe.Binding(a, id) == Dedupe.Binding(c, id)
    ensures Dedupe.Binding(a + more, id) == Dedupe.Binding(c + more, id)
  {
    if more == [] {
      assert a + more == a && c + more == c;
    } else {
      var front, m := more[..|more| - 1], more[|more| - 1];
      BindingOfConcat(a, c, front, id);
      BindingAppend(a + front, m, id);
      BindingAppend(c + front, m, id);
      assert a + more == a + front + [m] && c + more == c + front + [m];
    }
  }

  /** The bindings do not see results put between a and more. */
  lemma BindingsAround(a: seq<Message>, results: seq<Message>, more: seq<Message>, id: Bytes)
    requires OnlyResults(results)
    ensures Dedupe.Binding(a + results, id) == Dedupe.Binding(a, id)
    ensures Dedupe.Binding(a + results + more, id) == Dedupe.Binding(a + more, id)
  {
    ResultsBindNothing(a, results, id);
    BindingOfConcat(a + results, a, more, id);
  }

  /** Some content that none of the messages has. */
  function FreshContent(msgs: seq<Message>): (c: Bytes)
    ensures forall m :: m in msgs ==> |m.content| < |c|
  {
    if msgs == [] then [0] else
    var c := FreshContent(msgs[..|msgs| - 1]) + msgs[|msgs| - 1].content;
    assert msgs == msgs[..|msgs| - 1] + [msgs[|msgs| - 1]];
    c + [0]
  }

  function ResultWith(id: Bytes, content: Bytes): Message {
    Message(TOOL, content, [], [], id, map[])
  }

  /** Two neighbouring results with equal contents, the content in no later message: the
      first is stubbed exactly when their IDs stand for one call. */
  lemma Twins(h: seq<Message>, p: nat, x: Bytes, y: Bytes, c: Bytes)
    requires x != [] && y != [] && p + 1 < |h| && h[p] == ResultWith(x, c) && h[p + 1] == ResultWith(y, c)
    requires forall j :: p + 1 < j < |h| ==> h[j].content != c
    ensures Dedupe.Stubbed(h, p) <==> Dedupe.Binding(h, x).Some? && Dedupe.Binding(h, y) == Dedupe.Binding(h, x)
  {
    assert Dedupe.Stubbed(h, p) <==> Dedupe.SameResult(h, p, p + 1);
  }

  /** Results of x and y with one content that no message of more has. */
  function TwinResults(x: Bytes, y: Bytes, more: seq<Message>): (r: seq<Message>)
    ensures OnlyResults(r)
  {
    [ResultWith(x, FreshContent(more)), ResultWith(y, FreshContent(more))]
  }

  lemma PlacedTwins(a: seq<Message>, x: Bytes, y: Bytes, more: seq<Message>)
    ensures var c, b := FreshContent(more), a + TwinResults(x, y, more) + more;
            && b[|a|] == ResultWith(x, c) && b[|a| + 1] == ResultWith(y, c)
            && forall j :: |a| + 1 < j < |b| ==> b[j].content != c
  {
    var b := a + TwinResults(x, y, more) + more;
    forall j | |a| + 1 < j < |b| ensures b[j].content != FreshContent(more) {
      assert b[j] == more[j - |a| - 2] && b[j] in more;
    }
  }

  lemma TwinsUnstubbed(a: seq<Message>, more: seq<Message>, x: Bytes, y: Bytes)
    requires x != [] && y != []
    requires !(Dedupe.Binding(a + more, x).Some? && Dedupe.Binding(a + more, y) == Dedupe.Binding(a + more, x))
    ensures !Dedupe.Stubbed(a + TwinResults(x, y, more) + more, |a|)
  {
    BindingsAround(a, TwinResults(x, y, more), more, x);
    BindingsAround(a, TwinResults(x, y, more), more, y);
    PlacedTwins(a, x, y, more);
    Twins(a + TwinResults(x, y, more) + more, |a|, x, y, FreshContent(more));
  }

  lemma TwinsStubbed(a: seq<Message>, more: seq<Message>, x: Bytes, y: Bytes)
    requires x != [] && y != [] && Dedupe.Binding(a, x).Some? && Dedupe.Binding(a, y) == Dedupe.Binding(a, x)
    ensures Dedupe.Stubbed(a + TwinResults(x, y, more), |a|)
  {
    ResultsBindNothing(a, TwinResults(x, y, more), x);
    ResultsBindNothing(a, TwinResults(x, y, more), y);
    Twins(a + TwinResults(x, y, more), |a|, x, y, FreshContent(more));
  }

  /** Appending more keeps every stub, whatever results the history holds besides, exactly
      when it keeps the IDs of one call together. */
  lemma StubsStayExactly(a: seq<Message>, more: seq<Message>)
    ensures Together(a, a + more) <==>
            forall results :: OnlyResults(results) ==> StubsStay(a + results, a + results + more)
  {
    if Together(a, a + more) {
      forall results | OnlyResults(results) ensures StubsStay(a + results, a + results + more) {
        TogetherAround(a, results, more);
        forall i: nat | i < |a + results| && Dedupe.Stubbed(a + results, i)
          ensures Dedupe.Stubbed(a + results + more, i)
        {
          StubStays(a + results, a + results + more, i);
        }
      }
    } else {
      var x, y :| x != [] && y != [] && Dedupe.Binding(a, x).Some? && Dedupe.Binding(a, y) == Dedupe.Binding(a, x)
                  && !(Dedupe.Binding(a + more, x).Some?
                       && Dedupe.Binding(a + more, y) == Dedupe.Binding(a + more, x));
      TwinsStubbed(a, more, x, y);
      TwinsUnstubbed(a, more, x, y);
      var results := TwinResults(x, y, more);
      assert !StubsStay(a + results, a + results + more);
    }
  }

  lemma TogetherAround(a: seq<Message>, results: seq<Message>, more: seq<Message>)
    requires OnlyResults(results) && Together(a, a + more)
    ensures Together(a + results, a + results + more)
  {
    forall x
      ensures Dedupe.Binding(a + results, x) == Dedupe.Binding(a, x)
      ensures Dedupe.Binding(a + results + more, x) == Dedupe.Binding(a + more, x)
    {
      BindingsAround(a, results, more, x);
    }
  }

  // ----- a condition on the appended calls -----

  /** No ID that a binds to a call is bound to a different call in b. */
  ghost predicate NoRebinding(a: seq<Message>, b: seq<Message>) {
    forall id :: Dedupe.Binding(a, id).Some? ==> Dedupe.Binding(b, id) == Dedupe.Binding(a, id)
  }

  /** Appended assistant messages whose calls agree with the bindings so far rebind nothing. */
  ghost predicate FreshOrSame(a: seq<Message>, b: seq<Message>)
    requires a <= b
  {
    forall k, c :: |a| <= k < |b| && b[k].role == ASSISTANT && c in b[k].toolCalls && Dedupe.Binding(a, c.id).Some?
      ==> Dedupe.Binding(a, c.id) == Some(Dedupe.HashCall(c.name, c.arguments))
  }

  lemma {:induction false} BindCallsFound(calls: seq<ToolCall>, id: Bytes)
    ensures Dedupe.BindCalls(calls, id).Some? ==>
              exists c :: c in calls && c.id == id
                          && Dedupe.BindCalls(calls, id) == Some(Dedupe.HashCall(c.name, c.arguments))
  {
    if calls != [] {
      BindCallsFound(calls[..|calls| - 1], id);
      assert calls[|calls| - 1] in calls;
    }
  }

  lemma {:induction false} FreshBinding(a: seq<Message>, b: seq<Message>, id: Bytes)
    requires a <= b && FreshOrSame(a, b) && Dedupe.Binding(a, id).Some?
    ensures Dedupe.Binding(b, id) == Dedupe.Binding(a, id)
    decreases |b|
  {
    if |a| < |b| {
      var front, m := b[..|b| - 1], b[|b| - 1];
      forall k | |a| <= k < |front| ensures front[k] == b[k] {
      }
      FreshBinding(a, front, id);
      BindCallsFound(m.toolCalls, id);
    } else {
      assert a == b;
    }
  }

  /** Calls that are new or agree rebind no ID, and so separate none. */
  lemma FreshIdsGrow(a: seq<Message>, b: seq<Message>)
    requires a <= b && FreshOrSame(a, b)
    ensures NoRebinding(a, b) && Grows(a, b)
  {
    forall id | Dedupe.Binding(a, id).Some? ensures Dedupe.Binding(b, id) == Dedupe.Binding(a, id) {
      FreshBinding(a, b, id);
    }
  }

  /** Keeping IDs together asks less: a call all of whose IDs are rebound alike loses no stub. */
  lemma NoRebindingSuffices(a: seq<Message>, b: seq<Message>)
    requires NoRebinding(a, b)
    ensures Together(a, b)
  {
  }

  function Call(id: Bytes, name: Bytes): Message {
    Message(ASSISTANT, [], [], [ToolCall(id, [], name, [], map[])], [], map[])
  }

  function ResultOf(id: Bytes): Message {
    ResultWith(id, [])
  }

  /** An input that loses a stub: the history that follows rebinds the ID of the later,
      identical result and leaves that of the stub alone. */
  lemma RebindingUnstubs()
    ensures exists a, b, i: nat :: a <= b && i < |a| && Dedupe.Stubbed(a, i) && !Dedupe.Stubbed(b, i)
  {
    var a := [Call([1], [7]), Call([2], [7]), ResultOf([1]), ResultOf([2])];
    var b := a + [Call([2], [8])];
    BindingsOf(a, b);
    assert Dedupe.SameResult(a, 2, 3);
    assert !Dedupe.SameResult(b, 2, 3) && !Dedupe.SameResult(b, 2, 4);
    assert Dedupe.Stubbed(a, 2) && !Dedupe.Stubbed(b, 2);
  }

  lemma CallBinds(id: Bytes, name: Bytes, q: Bytes)
    ensures Dedupe.BindCalls(Call(id, name).toolCalls, q) == if q == id then Some(Dedupe.HashCall(name, [])) else None
  {
    assert Call(id, name).toolCalls[..0] == [];
  }

  lemma BindingsOf(a: seq<Message>, b: seq<Message>)
    requires a == [Call([1], [7]), Call([2], [7]), ResultOf([1]), ResultOf([2])] && b == a + [Call([2], [8])]
    ensures Dedupe.Binding(a, [1]) == Dedupe.Binding(a, [2]) == Some(Dedupe.HashCall([7], []))
    ensures Dedupe.Binding(b, [1]) == Some(Dedupe.HashCall([7], []))
    ensures Dedupe.Binding(b, [2]) == Some(Dedupe.HashCall([8], []))
    ensures Dedupe.HashCall([7], []) != Dedupe.HashCall([8], [])
  {
    assert Dedupe.HashCall([7], [])[0] == 7 && Dedupe.HashCall([8], [])[0] == 8;
    var one := [] + [Call([1], [7])];
    var two := one + [Call([2], [7])];
    var three := two + [ResultOf([1])];
    assert a == three + [ResultOf([2])];
    forall id: Bytes | id == [1] || id == [2]
      ensures Dedupe.Binding(a, id) == Some(Dedupe.HashCall([7], []))
      ensures Dedupe.Binding(b, id) == Some(Dedupe.HashCall(if id == [1] then [7] else [8], []))
    {
      CallBinds([1], [7], id);
      CallBinds([2], [7], id);
      CallBinds([2], [8], id);
      BindingAppend([], Call([1], [7]), id);
      BindingAppend(one, Call([2], [7]), id);
      BindingAppend(two, ResultOf([1]), id);
      BindingAppend(three, ResultOf([2]), id);
      BindingAppend(a, Call([2], [8]), id);
    }
    assert [1] != [2];
  }

  // ----- the stable prefix -----

  /** An old message is forwarded alike unless it becomes a stub. */
  lemma SameUnlessStubbed(a: seq<Message>, b: seq<Message>, i: nat)
    requires Grows(a, b) && i + 6 < |a|
    ensures |Forward(a)| == |a| && |Forward(b)| == |b|
    ensures Forward(a)[i] == Forward(b)[i] <==>
            (Dedupe.Stubbed(b, i) && !Dedupe.Stubbed(a, i) ==> Forward(a)[i].content == Dedupe.STUB)
  {
    ForwardedExactly(a, i);
    ForwardedExactly(b, i);
    if Dedupe.Stubbed(a, i) {
      StubStays(a, b, i);
    }
  }

  lemma SamePrefix<T>(f: seq<T>, g: seq<T>, k: nat)
    requires k <= |f| && k <= |g|
    ensures f[..k] == g[..k] <==> forall i :: 0 <= i < k ==> f[i] == g[i]
  {
    if f[..k] == g[..k] {
      forall i | 0 <= i < k ensures f[i] == g[i] {
        assert f[i] == f[..k][i] == g[..k][i];
      }
    }
  }

  /** When a history grows, the forwarded messages older than the first request's recency
      window stay the same exactly when each of them that becomes a stub was forwarded as the stub already. */
  lemma StablePrefix(a: seq<Message>, b: seq<Message>)
    requires Grows(a, b)
    ensures |Forward(a)| == |a| && |Forward(b)| == |b|
    ensures var k := if |a| <= 6 then 0 else |a| - 6;
            Forward(a)[..k] == Forward(b)[..k] <==>
            forall i :: 0 <= i < k && Dedupe.Stubbed(b, i) && !Dedupe.Stubbed(a, i)
              ==> Forward(a)[i].content == Dedupe.STUB
  {
    var k := if |a| <= 6 then 0 else |a| - 6;
    forall i | 0 <= i < k
      ensures Forward(a)[i] == Forward(b)[i] <==>
              (Dedupe.Stubbed(b, i) && !Dedupe.Stubbed(a, i) ==> Forward(a)[i].content == Dedupe.STUB)
    {
      SameUnlessStubbed(a, b, i);
    }
    SamePrefix(Forward(a), Forward(b), k);
  }

  /** Then the measured stable prefix is at least that long, and the pass reports it as
      soon as the first request has more than six messages. */
  lemma StablePrefixMeasured(a: seq<Message>, b: seq<Message>)
    requires Grows(a, b)
    requires forall i: nat :: i + 6 < |a| && Dedupe.Stubbed(b, i) ==> Dedupe.Stubbed(a, i)
    ensures var p, q := Fingerprint.OfMessages(Forward(a)), Fingerprint.OfMessages(Forward(b));
            var stable := ShapeCache.CommonPrefix(p, q);
            stable >= |a| - 6 && (|a| > 6 ==> stable > 0)
  {
    StablePrefix(a, b);
    var k, f, g := Cutoff(|a|), Forward(a), Forward(b);
    var p, q := Fingerprint.OfMessages(f), Fingerprint.OfMessages(g);
    forall i | 0 <= i < k ensures p[i] == q[i] {
      assert f[i] == f[..k][i] == g[..k][i] == g[i];
    }
    var n := ShapeCache.CommonPrefix(p, q);
  }
}
