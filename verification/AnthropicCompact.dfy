// compact_history over block contents (internal/anthropic/compact_history.go).
module AnthropicCompact {
  import opened ByteStrings
  import opened Utf8
  import opened JsonString
  import opened Cleanup
  import opened AnthropicTypes
  import opened CompactLaws
  import Compact
  import Messages

  // ----- specification -----

  /** The text of a tool result: cleaned, and cut down when it is still too long. */
  function ResultText(text: Bytes): Bytes {
    Compact.CompactedText(Messages.TOOL, text)
  }

  /** A tool result's content; there is no size gate for a single block. */
  function ResultContent(content: Bytes): Bytes {
    match DecodeString(content)
    case None => content
    case Some(text) => if ResultText(text) == text then content else EncodeString(ResultText(text))
  }

  function CompactBlock(b: Block): Block {
    if b.kind == TEXT then b.(text := Clean(b.text))
    else if b.kind == TOOL_RESULT then b.(content := ResultContent(b.content))
    else b
  }

  predicate BlockTruncates(b: Block) {
    b.kind == TOOL_RESULT && CompactBlock(b) != b && Compact.Truncates(Messages.TOOL, DecodeString(b.content).value)
  }

  predicate AnyTruncates(blocks: seq<Block>) {
    blocks != [] && (AnyTruncates(blocks[..|blocks| - 1]) || BlockTruncates(blocks[|blocks| - 1]))
  }

  predicate AnyChanges(blocks: seq<Block>) {
    blocks != [] && (AnyChanges(blocks[..|blocks| - 1]) || CompactBlock(blocks[|blocks| - 1]) != blocks[|blocks| - 1])
  }

  lemma {:induction false} AnyChangesMeans(blocks: seq<Block>)
    ensures AnyChanges(blocks) <==> CompactBlocks(blocks) != blocks
  {
    if blocks != [] {
      var n := |blocks| - 1;
      AnyChangesMeans(blocks[..n]);
      assert CompactBlocks(blocks)[n] == CompactBlock(blocks[n]);
      assert CompactBlocks(blocks)[..n] == CompactBlocks(blocks[..n]);
      assert blocks == blocks[..n] + [blocks[n]];
      assert CompactBlocks(blocks) == CompactBlocks(blocks[..n]) + [CompactBlock(blocks[n])];
    }
  }

  function CompactBlocks(blocks: seq<Block>): (r: seq<Block>)
    ensures |r| == |blocks|
    ensures forall i :: 0 <= i < |blocks| ==> r[i] == CompactBlock(blocks[i])
  {
    seq(|blocks|, i requires 0 <= i < |blocks| => CompactBlock(blocks[i]))
  }

  function Shorter(before: Bytes, after: Bytes): Bytes {
    if |after| >= |before| then before else after
  }

  /** The content a message is left with. */
  function CompactContent(codec: BlockCodec, content: Bytes): Bytes {
    if content == [] then content
    else match DecodeString(content)
      case Some(text) => if Clean(text) == text then content else Shorter(content, EncodeString(Clean(text)))
      case None =>
        match codec.read(content)
        case None => content
        case Some(blocks) =>
          if CompactBlocks(blocks) == blocks then content else Shorter(content, codec.write(CompactBlocks(blocks)))
  }

  function CompactMessage(codec: BlockCodec, m: Message): Message {
    m.(content := CompactContent(codec, m.content))
  }

  predicate MessageTruncates(codec: BlockCodec, content: Bytes) {
    DecodeString(content).None? && codec.read(content).Some? && AnyTruncates(codec.read(content).value)
  }

  datatype Entry = Entry(index: nat, role: Bytes, before: nat, after: nat, truncated: bool)

  function Entries(codec: BlockCodec, index: nat, m: Message): seq<Entry> {
    var content := CompactContent(codec, m.content);
    if content == m.content then []
    else [Entry(index, m.role, |m.content|, |content|, MessageTruncates(codec, m.content))]
  }

  function Report(codec: BlockCodec, msgs: seq<Message>, k: nat): seq<Entry>
    requires k <= |msgs|
  {
    if k == 0 then [] else Report(codec, msgs, k - 1) + Entries(codec, k - 1, msgs[k - 1])
  }

  // ----- the pass -----

  method CompactToolResult(blocks: array<Block>, i: nat) returns (truncated: bool, changed: bool)
    requires i < blocks.Length && blocks[i].kind == TOOL_RESULT
    modifies blocks
    ensures blocks[i] == CompactBlock(old(blocks[i]))
    ensures forall j :: 0 <= j < blocks.Length && j != i ==> blocks[j] == old(blocks[j])
    ensures changed <==> CompactBlock(old(blocks[i])) != old(blocks[i])
    ensures truncated <==> BlockTruncates(old(blocks[i]))
  {
    var b := blocks[i];
    if |b.content| == 0 {
      return false, false;
    }
    var decoded := DecodeString(b.content);
    if decoded.None? {
      return false, false;
    }
    var original := decoded.value;
    var s := Clean(original);
    truncated := false;
    if |s| > Compact.TRUNCATE_THRESHOLD {
      s := Compact.Truncate(s);
      truncated := true;
    }
    assert s == ResultText(original);
    if s == original {
      return false, false;
    }
    ChangedTextChangesContent(b.content);
    blocks[i] := b.(content := EncodeString(s));
    return truncated, true;
  }

  /** A text that changes is never written back as the same content. */
  lemma ChangedTextChangesContent(content: Bytes)
    requires DecodeString(content).Some? && ResultText(DecodeString(content).value) != DecodeString(content).value
    ensures EncodeString(ResultText(DecodeString(content).value)) != content
  {
    var text := DecodeString(content).value;
    DecodedIsValid(content);
    CleanValid(text);
    CleanKeepsInk(text);
    RoundTrip(ResultText(text));
    SanitizeFixpoint(Clean(text));
    if Compact.Truncates(Messages.TOOL, text) && EncodeString(ResultText(text)) == content {
      TruncatedLoses(Clean(text));
    }
  }

  lemma SpliceLoses(s: Bytes, m: Bytes)
    requires Valid(s) && |s| > Compact.TRUNCATE_THRESHOLD && Valid(m) && m != []
    requires |m| + 12 < |s| - Compact.HEAD - Compact.TAIL
    ensures |Sanitize(s[..Compact.HEAD] + m + s[|s| - Compact.TAIL..])| < |s|
  {
    SplicedDecodes(s[..Compact.HEAD], m, s[|s| - Compact.TAIL..]);
    CutBefore(s, Compact.HEAD);
    CutAfter(s, |s| - Compact.TAIL);
  }

  /** The two cuts can add at most twelve bytes; truncation drops at least 2801 and adds a short marker. */
  lemma TruncatedLoses(s: Bytes)
    requires Valid(s) && |s| > Compact.TRUNCATE_THRESHOLD
    ensures |Sanitize(Compact.Truncate(s))| < |s|
  {
    var n := |s| - Compact.HEAD - Compact.TAIL;
    MarkerBody(n);
    SpliceLoses(s, Compact.Marker(n));
  }

  /** The switch over one block's type. */
  method CompactBlockAt(blocks: array<Block>, i: nat) returns (changed: bool, truncated: bool)
    requires i < blocks.Length
    modifies blocks
    ensures blocks[i] == CompactBlock(old(blocks[i]))
    ensures forall j :: 0 <= j < blocks.Length && j != i ==> blocks[j] == old(blocks[j])
    ensures changed <==> CompactBlock(old(blocks[i])) != old(blocks[i])
    ensures truncated <==> BlockTruncates(old(blocks[i]))
  {
    changed, truncated := false, false;
    var b := blocks[i];
    if b.kind == TEXT {
      var compact := Clean(b.text);
      if compact != b.text {
        blocks[i] := b.(text := compact);
        changed := true;
      }
    } else if b.kind == TOOL_RESULT {
      truncated, changed := CompactToolResult(blocks, i);
    }
  }

  method CompactBlocksInPlace(blocks: array<Block>) returns (changed: bool, truncated: bool)
    modifies blocks
    ensures blocks[..] == CompactBlocks(old(blocks[..]))
    ensures changed <==> CompactBlocks(old(blocks[..])) != old(blocks[..])
    ensures truncated <==> AnyTruncates(old(blocks[..]))
  {
    ghost var was := blocks[..];
    ghost var goal := CompactBlocks(was);
    changed, truncated := false, false;
    for i := 0 to blocks.Length
      invariant forall j :: 0 <= j < i ==> blocks[j] == goal[j]
      invariant forall j :: i <= j < |was| ==> blocks[j] == was[j]
      invariant changed == AnyChanges(was[..i])
      invariant truncated == AnyTruncates(was[..i])
    {
      assert was[..i + 1][..i] == was[..i];
      var ok, didTruncate := CompactBlockAt(blocks, i);
      changed := changed || ok;
      truncated := truncated || didTruncate;
    }
    assert was[..|was|] == was;
    AnyChangesMeans(was);
  }

  method CompactInPlace(codec: BlockCodec, index: nat, msgs: array<Message>) returns (report: Entry, ok: bool)
    requires index < msgs.Length
    modifies msgs
    ensures msgs[index] == CompactMessage(codec, old(msgs[index]))
    ensures forall j :: 0 <= j < msgs.Length && j != index ==> msgs[j] == old(msgs[j])
    ensures (if ok then [report] else []) == Entries(codec, index, old(msgs[index]))
  {
    var m := msgs[index];
    var none := Entry(0, [], 0, 0, false);
    if |m.content| == 0 {
      return none, false;
    }
    var beforeBytes := |m.content|;
    var decoded := DecodeString(m.content);
    if decoded.Some? {
      var compact := Clean(decoded.value);
      if compact == decoded.value {
        return none, false;
      }
      var enc := EncodeString(compact);
      if |enc| >= beforeBytes {
        return none, false;
      }
      msgs[index] := m.(content := enc);
      return Entry(index, m.role, beforeBytes, |enc|, false), true;
    }
    var parsed := codec.read(m.content);
    if parsed.None? {
      return none, false;
    }
    var blocks := new Block[|parsed.value|](k requires 0 <= k < |parsed.value| => parsed.value[k]);
    assert blocks[..] == parsed.value;
    var changed, truncated := CompactBlocksInPlace(blocks);
    if !changed {
      return none, false;
    }
    var enc := codec.write(blocks[..]);
    if |enc| >= beforeBytes {
      return none, false;
    }
    msgs[index] := m.(content := enc);
    return Entry(index, m.role, beforeBytes, |enc|, truncated), true;
  }

  method CompactHistoryWithReport(codec: BlockCodec, messages: array<Message>) returns (touched: seq<Entry>)
    modifies messages
    ensures forall i :: 0 <= i < messages.Length ==>
              messages[i] == if i + 6 < messages.Length then CompactMessage(codec, old(messages[i]))
                             else old(messages[i])
    ensures touched == Report(codec, old(messages[..]), if messages.Length <= 6 then 0 else messages.Length - 6)
  {
    var n := messages.Length;
    touched := [];
    if n <= Compact.RECENCY_WINDOW {
      return;
    }
    ghost var was := messages[..];
    for i := 0 to n - Compact.RECENCY_WINDOW
      invariant touched == Report(codec, was, i)
      invariant forall j :: 0 <= j < i ==> messages[j] == CompactMessage(codec, was[j])
      invariant forall j :: i <= j < n ==> messages[j] == was[j]
    {
      var report, ok := CompactInPlace(codec, i, messages);
      if ok {
        touched := touched + [report];
      }
    }
  }

  // ----- what is rewritten -----

  /** The block types decide: the text of a text block is cleaned, the string content of a tool
      result is cleaned and cut like a tool output, and every other block stays. */
  lemma BlockExactly(b: Block)
    ensures b.kind == Ascii("text") ==> CompactBlock(b) == b.(text := Clean(b.text))
    ensures b.kind == Ascii("tool_result") ==>
              CompactBlock(b) == b.(content := CompactBlock(b).content)
              && (DecodeString(b.content).None? ==> CompactBlock(b) == b)
              && (DecodeString(b.content).Some? ==>
                    var text := DecodeString(b.content).value;
                    var short := Compact.CompactedText(Ascii("tool"), text);
                    CompactBlock(b).content == if short == text then b.content else EncodeString(short))
    ensures b.kind != Ascii("text") && b.kind != Ascii("tool_result") ==> CompactBlock(b) == b
  {
    assert Ascii("text") != Ascii("tool_result");
  }

  /** A content is rewritten exactly when it is a string or a block list that changes and whose
      new form is shorter. */
  lemma RewrittenExactly(codec: BlockCodec, content: Bytes)
    ensures var now := CompactContent(codec, content);
            && |now| <= |content|
            && (DecodeString(content).Some? ==>
                  var text := DecodeString(content).value;
                  && (now != content <==> Clean(text) != text && |EncodeString(Clean(text))| < |content|)
                  && (now != content ==> now == EncodeString(Clean(text))))
            && (DecodeString(content).None? && codec.read(content).None? ==> now == content)
            && (DecodeString(content).None? && codec.read(content).Some? && content != [] ==>
                  var blocks := codec.read(content).value;
                  && (now != content <==>
                        CompactBlocks(blocks) != blocks && |codec.write(CompactBlocks(blocks))| < |content|)
                  && (now != content ==> now == codec.write(CompactBlocks(blocks))))
            && (content == [] ==> now == content)
  {
  }

  /** The block is a tool result whose cleaned text has more than 4000 bytes. */
  predicate LongResult(b: Block) {
    b.kind == Ascii("tool_result") && DecodeString(b.content).Some? && |Clean(DecodeString(b.content).value)| > 4000
  }

  lemma BlockTruncatesExactly(b: Block)
    ensures BlockTruncates(b) <==> LongResult(b)
  {
    if LongResult(b) {
      ChangedLong(b.content);
    }
    assert Ascii("text") != Ascii("tool_result");
  }

  lemma ChangedLong(content: Bytes)
    requires DecodeString(content).Some? && |Clean(DecodeString(content).value)| > 4000
    ensures ResultContent(content) != content
  {
    var text := DecodeString(content).value;
    CleanKeepsInk(text);
    TruncatedLength(Clean(text));
    ChangedTextChangesContent(content);
  }

  /** The flag of the report: some tool result was cut. */
  lemma {:induction false} TruncatesExactly(blocks: seq<Block>)
    ensures AnyTruncates(blocks) <==>
            exists b :: b in blocks && b.kind == Ascii("tool_result") && DecodeString(b.content).Some?
                        && |Clean(DecodeString(b.content).value)| > 4000
  {
    if blocks != [] {
      var front, b := blocks[..|blocks| - 1], blocks[|blocks| - 1];
      TruncatesExactly(front);
      BlockTruncatesExactly(b);
      assert blocks == front + [b];
    }
  }

  predicate Ascending(r: seq<Entry>) {
    forall a, b :: 0 <= a < b < |r| ==> r[a].index < r[b].index
  }

  /** The entry of message i, said of its own fields. */
  predicate DescribesChange(codec: BlockCodec, e: Entry, i: nat, m: Message) {
    && CompactContent(codec, m.content) != m.content
    && e.index == i && e.role == m.role
    && e.before == |m.content| && e.after == |CompactContent(codec, m.content)| < e.before
    && (e.truncated <==> DecodeString(m.content).None? && codec.read(m.content).Some?
                         && exists b :: b in codec.read(m.content).value && LongResult(b))
  }

  lemma EntriesExact(codec: BlockCodec, i: nat, m: Message)
    ensures |Entries(codec, i, m)| == if CompactContent(codec, m.content) != m.content then 1 else 0
    ensures forall e :: e in Entries(codec, i, m) ==> e.index == i && DescribesChange(codec, e, i, m)
  {
    RewrittenExactly(codec, m.content);
    if codec.read(m.content).Some? {
      TruncatesExactly(codec.read(m.content).value);
    }
  }

  function EntryParts(codec: BlockCodec, msgs: seq<Message>, k: nat): (r: seq<seq<Entry>>)
    requires k <= |msgs|
    ensures |r| == k
  {
    seq(k, i requires 0 <= i < k => Entries(codec, i, msgs[i]))
  }

  lemma {:induction false} ReportIsFlat(codec: BlockCodec, msgs: seq<Message>, k: nat)
    requires k <= |msgs|
    ensures Report(codec, msgs, k) == Flat(EntryParts(codec, msgs, k))
  {
    if k > 0 {
      ReportIsFlat(codec, msgs, k - 1);
      assert EntryParts(codec, msgs, k)[..k - 1] == EntryParts(codec, msgs, k - 1);
    }
  }

  lemma AscendingNext(r: seq<Entry>, more: seq<Entry>, k: nat)
    requires Ascending(r) && (forall e :: e in r ==> e.index < k)
    requires |more| <= 1 && forall e :: e in more ==> e.index == k
    ensures Ascending(r + more) && forall e :: e in r + more ==> e.index <= k
  {
    assert forall a :: 0 <= a < |r| ==> r[a] in r;
    assert forall a :: 0 <= a < |more| ==> more[a] in more;
  }

  lemma {:induction false} ReportAscends(codec: BlockCodec, msgs: seq<Message>, k: nat)
    requires k <= |msgs|
    ensures Ascending(Report(codec, msgs, k)) && forall e :: e in Report(codec, msgs, k) ==> e.index < k
  {
    if k > 0 {
      ReportAscends(codec, msgs, k - 1);
      EntriesExact(codec, k - 1, msgs[k - 1]);
      AscendingNext(Report(codec, msgs, k - 1), Entries(codec, k - 1, msgs[k - 1]), k - 1);
    }
  }

  /** The report lists exactly the changed messages among the first k, oldest first. */
  lemma ReportExact(codec: BlockCodec, msgs: seq<Message>, k: nat)
    requires k <= |msgs|
    ensures Ascending(Report(codec, msgs, k))
    ensures forall e :: e in Report(codec, msgs, k) ==>
              e.index < k && DescribesChange(codec, e, e.index, msgs[e.index])
    ensures forall i :: 0 <= i < k && CompactContent(codec, msgs[i].content) != msgs[i].content ==>
              exists e :: e in Report(codec, msgs, k) && e.index == i
  {
    ReportAscends(codec, msgs, k);
    ReportIsFlat(codec, msgs, k);
    forall e | e in Report(codec, msgs, k)
      ensures e.index < k && DescribesChange(codec, e, e.index, msgs[e.index])
    {
      var i := FlatSource(EntryParts(codec, msgs, k), e);
      EntriesExact(codec, i, msgs[i]);
    }
    forall i | 0 <= i < k && CompactContent(codec, msgs[i].content) != msgs[i].content
      ensures exists e :: e in Report(codec, msgs, k) && e.index == i
    {
      EntriesExact(codec, i, msgs[i]);
      FlatHas(EntryParts(codec, msgs, k), i, Entries(codec, i, msgs[i])[0]);
    }
  }

  // ----- laws -----

  /** Of a block only the text of a text block and the content of a tool result can
      change, and a text loses nothing but white space. */
  lemma BlockKeepsTheRest(b: Block)
    ensures var c := CompactBlock(b);
            && c.(text := b.text, content := b.content) == b
            && (b.kind != TEXT ==> c.text == b.text)
            && (b.kind != TOOL_RESULT ==> c.content == b.content)
            && Ink(c.text) == Ink(b.text)
  {
    CleanKeepsInk(b.text);
  }

  /** A plain string content is treated as the OpenAI pass treats a message that is not a tool result. */
  lemma StringContent(codec: BlockCodec, content: Bytes, role: Bytes)
    requires DecodeString(content).Some? && role != Messages.TOOL
    ensures CompactContent(codec, content) == Compact.CompactContent(role, content)
  {
  }

  lemma CleanResultFixed(s: Bytes)
    requires Valid(s) && Irreducible(s) && |s| <= Compact.TRUNCATE_THRESHOLD
    ensures ResultContent(EncodeString(s)) == EncodeString(s)
  {
    CleanFixpoint(s);
    RoundTrip(s);
    SanitizeFixpoint(s);
  }

  /** A tool result stops changing after two applications. */
  lemma TwoApplicationsOfResult(content: Bytes)
    requires |content| <= MAX_LEN
    ensures var twice := ResultContent(ResultContent(content)); ResultContent(twice) == twice
  {
    if ResultContent(content) != content {
      var text := DecodeString(content).value;
      var s := Clean(text);
      DecodedIsValid(content);
      CleanValid(text);
      CleanIrreducible(text);
      CleanKeepsInk(text);
      if |s| <= Compact.TRUNCATE_THRESHOLD {
        CleanResultFixed(s);
      } else {
        CutResultFixed(s);
      }
    }
  }

  lemma CutResultFixed(s: Bytes)
    requires Valid(s) && Compact.TRUNCATE_THRESHOLD < |s| <= 3 * MAX_LEN
    ensures var once := EncodeString(Compact.Truncate(s)); ResultContent(ResultContent(once)) == ResultContent(once)
  {
    var t := Sanitize(Compact.Truncate(s));
    RoundTrip(Compact.Truncate(s));
    SanitizeValid(Compact.Truncate(s));
    TruncatedStaysShort(s);
    CleanValid(t);
    CleanKeepsInk(t);
    CleanIrreducible(t);
    CleanResultFixed(Clean(t));
  }

  /** A block stops changing after two applications. */
  lemma TwoApplicationsOfBlock(b: Block)
    requires |b.content| <= MAX_LEN
    ensures CompactBlock(CompactBlock(CompactBlock(b))) == CompactBlock(CompactBlock(b))
  {
    if b.kind == TEXT {
      CleanFixpoint(b.text);
    } else if b.kind == TOOL_RESULT {
      TwoApplicationsOfResult(b.content);
    }
  }

  lemma {:induction false} TwoApplicationsOfBlocks(blocks: seq<Block>)
    requires forall b :: b in blocks ==> |b.content| <= MAX_LEN
    ensures CompactBlocks(CompactBlocks(CompactBlocks(blocks))) == CompactBlocks(CompactBlocks(blocks))
  {
    forall i | 0 <= i < |blocks|
      ensures CompactBlock(CompactBlock(CompactBlock(blocks[i]))) == CompactBlock(CompactBlock(blocks[i]))
    {
      assert blocks[i] in blocks;
      TwoApplicationsOfBlock(blocks[i]);
    }
  }

  /** What json.Marshal does to a raw value: it compacts it and escapes `<`, `>` and `&`.
      That is idempotent, keeps the text of a string, and changes nothing in a string that
      json.Marshal wrote itself. */
  ghost predicate RawForm(raw: Bytes -> Bytes) {
    && (forall c :: raw(raw(c)) == raw(c))
    && (forall c :: DecodeString(raw(c)) == DecodeString(c))
    && (forall s :: raw(EncodeString(s)) == EncodeString(s))
  }

  /** A block with its raw values in the form they are written in. */
  function Normal(raw: Bytes -> Bytes, b: Block): Block {
    b.(input := raw(b.input), content := raw(b.content), extra := map k | k in b.extra :: raw(b.extra[k]))
  }

  function NormalBlocks(raw: Bytes -> Bytes, blocks: seq<Block>): (r: seq<Block>)
    ensures |r| == |blocks|
    ensures forall i :: 0 <= i < |blocks| ==> r[i] == Normal(raw, blocks[i])
  {
    seq(|blocks|, i requires 0 <= i < |blocks| => Normal(raw, blocks[i]))
  }

  lemma NormalIdempotent(raw: Bytes -> Bytes, blocks: seq<Block>)
    requires RawForm(raw)
    ensures NormalBlocks(raw, NormalBlocks(raw, blocks)) == NormalBlocks(raw, blocks)
  {
    forall i | 0 <= i < |blocks|
      ensures Normal(raw, Normal(raw, blocks[i])) == Normal(raw, blocks[i])
    {
      var b := blocks[i];
      assert Normal(raw, Normal(raw, b)).extra == Normal(raw, b).extra;
    }
  }

  /** Compacting a block and writing its raw values commute. */
  lemma NormalCommutes(raw: Bytes -> Bytes, b: Block)
    requires RawForm(raw)
    ensures CompactBlock(Normal(raw, b)) == Normal(raw, CompactBlock(b))
  {
    if DecodeString(b.content).Some? {
      assert raw(EncodeString(ResultText(DecodeString(b.content).value)))
             == EncodeString(ResultText(DecodeString(b.content).value));
    }
  }

  lemma NormalBlocksCommute(raw: Bytes -> Bytes, blocks: seq<Block>)
    requires RawForm(raw)
    ensures CompactBlocks(NormalBlocks(raw, blocks)) == NormalBlocks(raw, CompactBlocks(blocks))
  {
    forall i | 0 <= i < |blocks|
      ensures CompactBlock(Normal(raw, blocks[i])) == Normal(raw, CompactBlock(blocks[i]))
    {
      NormalCommutes(raw, blocks[i]);
    }
  }

  /** A written block list is no string and reads back with its raw values as they were written. */
  predicate ReadsBack(codec: BlockCodec, raw: Bytes -> Bytes, blocks: seq<Block>) {
    var c := codec.write(blocks);
    c != [] && DecodeString(c).None? && codec.read(c) == Some(NormalBlocks(raw, blocks))
  }

  /** The lists of the second application are those of the first, normalized. */
  lemma SecondLists(raw: Bytes -> Bytes, blocks: seq<Block>)
    requires RawForm(raw) && forall b :: b in blocks ==> |b.content| <= MAX_LEN
    ensures var once := NormalBlocks(raw, CompactBlocks(blocks));
            var twice := NormalBlocks(raw, CompactBlocks(once));
            CompactBlocks(twice) == twice && twice == CompactBlocks(once)
  {
    var c := CompactBlocks(blocks);
    TwoApplicationsOfBlocks(blocks);
    NormalBlocksCommute(raw, c);
    NormalBlocksCommute(raw, CompactBlocks(c));
    NormalIdempotent(raw, CompactBlocks(c));
  }

  /** A message stops changing after two applications, size gate included, whatever raw
      values its blocks carry. */
  lemma TwoApplicationsOfMessage(codec: BlockCodec, raw: Bytes -> Bytes, content: Bytes)
    requires |content| <= MAX_LEN && RawForm(raw)
    requires DecodeString(content).None? && codec.read(content).Some? ==>
               var blocks := codec.read(content).value;
               && (forall b :: b in blocks ==> |b.content| <= MAX_LEN)
               && ReadsBack(codec, raw, CompactBlocks(blocks))
               && ReadsBack(codec, raw, CompactBlocks(NormalBlocks(raw, CompactBlocks(blocks))))
    ensures var twice := CompactContent(codec, CompactContent(codec, content)); CompactContent(codec, twice) == twice
  {
    if DecodeString(content).Some? {
      StringFixedAfterOne(codec, content);
    } else if codec.read(content).Some? {
      BlocksFixedAfterTwo(codec, raw, content);
    }
  }

  lemma BlocksFixedAfterTwo(codec: BlockCodec, raw: Bytes -> Bytes, content: Bytes)
    requires RawForm(raw) && DecodeString(content).None? && codec.read(content).Some?
    requires var blocks := codec.read(content).value;
             && (forall b :: b in blocks ==> |b.content| <= MAX_LEN)
             && ReadsBack(codec, raw, CompactBlocks(blocks))
             && ReadsBack(codec, raw, CompactBlocks(NormalBlocks(raw, CompactBlocks(blocks))))
    ensures var twice := CompactContent(codec, CompactContent(codec, content)); CompactContent(codec, twice) == twice
  {
    SecondLists(raw, codec.read(content).value);
  }

  lemma StringFixedAfterOne(codec: BlockCodec, content: Bytes)
    requires DecodeString(content).Some?
    ensures var once := CompactContent(codec, content); CompactContent(codec, once) == once
  {
    var s := Clean(DecodeString(content).value);
    DecodedIsValid(content);
    CleanValid(DecodeString(content).value);
    CleanFixpoint(DecodeString(content).value);
    RoundTrip(s);
    SanitizeFixpoint(s);
  }
}
