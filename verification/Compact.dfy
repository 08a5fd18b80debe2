// compact_history (internal/pipeline/compact_history.go).
module Compact {
  import opened ByteStrings
  import opened Decimals
  import opened Utf8
  import opened JsonString
  import opened Cleanup
  import opened Messages

  const RECENCY_WINDOW: nat := 6
  const TRUNCATE_THRESHOLD: nat := 4000
  const HEAD: nat := 800
  const TAIL: nat := 400

  const BLANK_LINE: Bytes := [NEWLINE, NEWLINE]
  const MARKER_OPEN: Bytes := BLANK_LINE + Ascii("... [")
  const ELIDED: Bytes := Ascii(" chars elided by proxy ")
  const EM_DASH: Bytes := [0xE2, 0x80, 0x94]
  const NOT_RETAINED: Bytes := Ascii(" old tool output,") + Ascii(" full version not retained") + Ascii("] ...")
  const MARKER_CLOSE: Bytes := ELIDED + EM_DASH + NOT_RETAINED + BLANK_LINE

  function Marker(omitted: nat): Bytes {
    MARKER_OPEN + Decimal(omitted) + MARKER_CLOSE
  }

  function Truncate(s: Bytes): Bytes
    requires |s| > TRUNCATE_THRESHOLD
  {
    s[..HEAD] + Marker(|s| - HEAD - TAIL) + s[|s| - TAIL..]
  }

  predicate Truncates(role: Bytes, text: Bytes) {
    role == TOOL && |Clean(text)| > TRUNCATE_THRESHOLD
  }

  /** The text a message is compacted to. */
  function CompactedText(role: Bytes, text: Bytes): Bytes {
    if Truncates(role, text) then Truncate(Clean(text)) else Clean(text)
  }

  /** The content a message is left with; non-string contents and rewrites that do not shrink are kept. */
  function CompactContent(role: Bytes, content: Bytes): Bytes {
    match DecodeString(content)
    case None => content
    case Some(text) =>
      var enc := EncodeString(CompactedText(role, text));
      if CompactedText(role, text) == text || |enc| >= |content| then content else enc
  }

  function CompactMessage(m: Message): Message {
    m.(content := CompactContent(m.role, m.content))
  }

  function Cutoff(n: nat): nat {
    if n <= RECENCY_WINDOW then 0 else n - RECENCY_WINDOW
  }

  /** All messages older than the recency window compacted. */
  function CompactAll(msgs: seq<Message>): seq<Message> {
    seq(|msgs|, i requires 0 <= i < |msgs| => if i < Cutoff(|msgs|) then CompactMessage(msgs[i]) else msgs[i])
  }

  datatype Entry = Entry(index: nat, role: Bytes, before: nat, after: nat, truncated: bool)

  /** The report entry for a message, if compaction changes it. */
  function Entries(index: nat, m: Message): seq<Entry> {
    var content := CompactContent(m.role, m.content);
    if content == m.content then []
    else [Entry(index, m.role, |m.content|, |content|, Truncates(m.role, DecodeString(m.content).value))]
  }

  /** The entries for the first k messages. */
  function Report(msgs: seq<Message>, k: nat): seq<Entry>
    requires k <= |msgs|
  {
    if k == 0 then [] else Report(msgs, k - 1) + Entries(k - 1, msgs[k - 1])
  }

  // ----- the passes -----

  method CompactInPlace(index: nat, msgs: array<Message>) returns (report: Entry, ok: bool)
    requires index < msgs.Length
    modifies msgs
    ensures msgs[index] == CompactMessage(old(msgs[index]))
    ensures forall j :: 0 <= j < msgs.Length && j != index ==> msgs[j] == old(msgs[j])
    ensures (if ok then [report] else []) == Entries(index, old(msgs[index]))
  {
    var m := msgs[index];
    var none := Entry(0, [], 0, 0, false);
    if |m.content| == 0 {
      return none, false;
    }
    var decoded := DecodeString(m.content);
    if decoded.None? {
      return none, false;
    }
    var s := decoded.value;
    var original := s;
    var originalBytes := |m.content|;

    s := ReplaceTrailing(s);
    s := ReplaceBlankLines(s);
    s := TrimRight(s);

    var truncated := false;
    if m.role == TOOL && |s| > TRUNCATE_THRESHOLD {
      var head := s[..HEAD];
      var tail := s[|s| - TAIL..];
      var omitted := |s| - HEAD - TAIL;
      s := head + (MARKER_OPEN + Decimal(omitted) + MARKER_CLOSE) + tail;
      truncated := true;
    }
    assert s == CompactedText(m.role, original);
    if s == original {
      return none, false;
    }
    var enc := EncodeString(s);
    if |enc| >= originalBytes {
      return none, false;
    }
    msgs[index] := m.(content := enc);
    return Entry(index, m.role, originalBytes, |enc|, truncated), true;
  }

  function CompactFront(msgs: seq<Message>, k: nat): (r: seq<Message>)
    requires k <= |msgs|
    ensures |r| == k
  {
    seq(k, i requires 0 <= i < k => CompactMessage(msgs[i]))
  }

  function EntryParts(msgs: seq<Message>, k: nat): (r: seq<seq<Entry>>)
    requires k <= |msgs|
    ensures |r| == k
  {
    seq(k, i requires 0 <= i < k => Entries(i, msgs[i]))
  }

  lemma {:induction false} ReportIsFlat(msgs: seq<Message>, k: nat)
    requires k <= |msgs|
    ensures Report(msgs, k) == Flat(EntryParts(msgs, k))
  {
    if k > 0 {
      ReportIsFlat(msgs, k - 1);
      assert EntryParts(msgs, k)[..k - 1] == EntryParts(msgs, k - 1);
    }
  }

  /** One turn of the loop. */
  method CompactAt(msgs: array<Message>, i: nat, touched: seq<Entry>, ghost was: seq<Message>, ghost k: nat)
    returns (now: seq<Entry>)
    requires i < k <= |was| == msgs.Length && msgs[i] == was[i]
    modifies msgs
    ensures msgs[i] == CompactFront(was, k)[i]
    ensures forall j :: 0 <= j < msgs.Length && j != i ==> msgs[j] == old(msgs[j])
    ensures now == touched + EntryParts(was, k)[i]
  {
    now := touched;
    var report, ok := CompactInPlace(i, msgs);
    if ok {
      now := now + [report];
    }
  }

  /** The loop over the first cutoff messages. */
  method CompactFirst(msgs: array<Message>, cutoff: nat) returns (touched: seq<Entry>)
    requires cutoff <= msgs.Length
    modifies msgs
    ensures touched == Report(old(msgs[..]), cutoff)
    ensures msgs[..cutoff] == CompactFront(old(msgs[..]), cutoff)
    ensures forall j :: cutoff <= j < msgs.Length ==> msgs[j] == old(msgs[j])
  {
    ghost var was := msgs[..];
    ghost var goal, parts := CompactFront(was, cutoff), EntryParts(was, cutoff);
    touched := [];
    for i := 0 to cutoff
      invariant touched == Flat(parts[..i])
      invariant forall j :: 0 <= j < i ==> msgs[j] == goal[j]
      invariant forall j :: i <= j < msgs.Length ==> msgs[j] == was[j]
    {
      assert parts[..i + 1][..i] == parts[..i];
      touched := CompactAt(msgs, i, touched, was, cutoff);
    }
    assert parts[..cutoff] == parts;
    ReportIsFlat(was, cutoff);
  }

  lemma FrontIsAll(msgs: seq<Message>, now: seq<Message>)
    requires |now| == |msgs| && now[..Cutoff(|msgs|)] == CompactFront(msgs, Cutoff(|msgs|))
    requires forall j :: Cutoff(|msgs|) <= j < |msgs| ==> now[j] == msgs[j]
    ensures now == CompactAll(msgs)
  {
    forall i | 0 <= i < Cutoff(|msgs|) ensures now[i] == CompactMessage(msgs[i]) {
      assert now[i] == now[..Cutoff(|msgs|)][i];
    }
  }

  method CompactHistoryWithReport(req: ChatRequest) returns (touched: seq<Entry>)
    modifies req.messages
    ensures req.messages[..] == CompactAll(old(req.messages[..]))
    ensures touched == Report(old(req.messages[..]), Cutoff(req.messages.Length))
    ensures Cutoff(req.messages.Length) == if req.messages.Length <= 6 then 0 else req.messages.Length - 6
    ensures forall i :: 0 <= i < req.messages.Length ==>
              req.messages[i] == if i + 6 < req.messages.Length then CompactMessage(old(req.messages[i]))
                                 else old(req.messages[i])
  {
    var n := req.messages.Length;
    ghost var was := req.messages[..];
    if n <= RECENCY_WINDOW {
      FrontIsAll(was, was);
      return [];
    }
    touched := CompactFirst(req.messages, n - RECENCY_WINDOW);
    FrontIsAll(was, req.messages[..]);
  }

  // ----- which messages are compacted, and how -----

  /** The last six messages are left alone, all older ones are compacted. */
  lemma CompactsOlder(msgs: seq<Message>, i: nat)
    requires i < |msgs|
    ensures |CompactAll(msgs)| == |msgs|
    ensures |msgs| <= i + 6 ==> CompactAll(msgs)[i] == msgs[i]
    ensures i + 6 < |msgs| ==> CompactAll(msgs)[i] == CompactMessage(msgs[i])
  {
  }

  /** A tool output is cut when its cleaned text has more than 4000 bytes: the first 800 and
      the last 400 bytes stay, around a note with the number of bytes left out. */
  lemma CutExactly(role: Bytes, text: Bytes)
    ensures Truncates(role, text) <==> role == Ascii("tool") && |Clean(text)| > 4000
    ensures !Truncates(role, text) ==> CompactedText(role, text) == Clean(text)
    ensures Truncates(role, text) ==>
              var s := Clean(text);
              CompactedText(role, text)
              == s[..800]
                 + (([0x0A, 0x0A] + Ascii("... [")) + Decimal(|s| - 1200)
                    + (Ascii(" chars elided by proxy ") + [0xE2, 0x80, 0x94]
                       + (Ascii(" old tool output,") + Ascii(" full version not retained") + Ascii("] ..."))
                       + [0x0A, 0x0A]))
                 + s[|s| - 400..]
  {
  }

  /** A content is rewritten exactly when it is a string whose text changes and whose new
      encoding is shorter; nothing but the content changes. */
  lemma RewrittenExactly(m: Message)
    ensures CompactMessage(m) == m.(content := CompactMessage(m).content)
    ensures CompactMessage(m).content != m.content <==>
            DecodeString(m.content).Some? &&
            var text := DecodeString(m.content).value;
            CompactedText(m.role, text) != text && |EncodeString(CompactedText(m.role, text))| < |m.content|
    ensures CompactMessage(m).content != m.content ==>
              CompactMessage(m).content == EncodeString(CompactedText(m.role, DecodeString(m.content).value))
  {
  }

  predicate Ascending(r: seq<Entry>) {
    forall a, b :: 0 <= a < b < |r| ==> r[a].index < r[b].index
  }

  /** The entry of message i, said of its own fields. */
  predicate DescribesChange(e: Entry, i: nat, m: Message) {
    && CompactMessage(m).content != m.content
    && e.index == i && e.role == m.role
    && e.before == |m.content| && e.after == |CompactMessage(m).content| < e.before
    && (e.truncated <==> m.role == Ascii("tool") && |Clean(DecodeString(m.content).value)| > 4000)
  }

  lemma EntriesExact(i: nat, m: Message)
    ensures |Entries(i, m)| == if CompactMessage(m).content != m.content then 1 else 0
    ensures forall e :: e in Entries(i, m) ==> DecodeString(m.content).Some? && DescribesChange(e, i, m)
  {
    RewrittenExactly(m);
  }

  /** The message an entry comes from. */
  lemma EntrySource(msgs: seq<Message>, k: nat, e: Entry) returns (i: nat)
    requires k <= |msgs| && e in Report(msgs, k)
    ensures i < k && e in Entries(i, msgs[i])
  {
    ReportIsFlat(msgs, k);
    i := FlatSource(EntryParts(msgs, k), e);
  }

  lemma EntriesIndex(i: nat, m: Message)
    ensures |Entries(i, m)| <= 1 && forall e :: e in Entries(i, m) ==> e.index == i
  {
  }

  lemma {:induction false} ReportAscends(msgs: seq<Message>, k: nat)
    requires k <= |msgs|
    ensures Ascending(Report(msgs, k)) && forall e :: e in Report(msgs, k) ==> e.index < k
  {
    if k > 0 {
      var r := Report(msgs, k - 1);
      ReportAscends(msgs, k - 1);
      EntriesIndex(k - 1, msgs[k - 1]);
      AscendingNext(r, Entries(k - 1, msgs[k - 1]), k - 1);
    }
  }

  lemma AscendingNext(r: seq<Entry>, more: seq<Entry>, k: nat)
    requires Ascending(r) && (forall e :: e in r ==> e.index < k)
    requires |more| <= 1 && forall e :: e in more ==> e.index == k
    ensures Ascending(r + more) && forall e :: e in r + more ==> e.index <= k
  {
    assert forall a :: 0 <= a < |r| ==> r[a] in r;
    assert forall a :: 0 <= a < |more| ==> more[a] in more;
  }

  /** The report lists exactly the changed messages among the first k, oldest first. */
  lemma ReportExact(msgs: seq<Message>, k: nat)
    requires k <= |msgs|
    ensures Ascending(Report(msgs, k))
    ensures forall e :: e in Report(msgs, k) ==>
              e.index < k && DecodeString(msgs[e.index].content).Some? && DescribesChange(e, e.index, msgs[e.index])
    ensures forall i :: 0 <= i < k && CompactMessage(msgs[i]).content != msgs[i].content ==>
              exists e :: e in Report(msgs, k) && e.index == i
  {
    ReportAscends(msgs, k);
    forall e | e in Report(msgs, k)
      ensures e.index < k && DecodeString(msgs[e.index].content).Some? && DescribesChange(e, e.index, msgs[e.index])
    {
      var i := EntrySource(msgs, k, e);
      EntriesExact(i, msgs[i]);
    }
    forall i | 0 <= i < k && CompactMessage(msgs[i]).content != msgs[i].content
      ensures exists e :: e in Report(msgs, k) && e.index == i
    {
      EntriesExact(i, msgs[i]);
      ReportIsFlat(msgs, k);
      FlatHas(EntryParts(msgs, k), i, Entries(i, msgs[i])[0]);
    }
  }
}
