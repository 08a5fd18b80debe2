// The byte audit of a request (cmd/thin/main.go:550-565 over the reports of
// internal/pipeline/pipeline.go:78-88).
module Audit {
  import opened ByteStrings
  import opened Messages
  import opened Pipeline
  import Compact
  import Conversation
  import Dedupe

  function DedupeSaved(r: seq<Dedupe.Entry>): int {
    if r == [] then 0 else DedupeSaved(r[..|r| - 1]) + (r[|r| - 1].before - r[|r| - 1].after)
  }

  function CompactSaved(r: seq<Compact.Entry>): int {
    if r == [] then 0 else CompactSaved(r[..|r| - 1]) + (r[|r| - 1].before - r[|r| - 1].after)
  }

  function TruncatedCount(r: seq<Compact.Entry>): nat {
    if r == [] then 0 else TruncatedCount(r[..|r| - 1]) + (if r[|r| - 1].truncated then 1 else 0)
  }

  /** The sums that the audit logs. */
  method Sums(deduped: seq<Dedupe.Entry>, compacted: seq<Compact.Entry>)
    returns (dedupeSaved: int, compactSaved: int, truncated: nat)
    ensures dedupeSaved == DedupeSaved(deduped)
    ensures compactSaved == CompactSaved(compacted) && truncated == TruncatedCount(compacted)
  {
    dedupeSaved, compactSaved, truncated := 0, 0, 0;
    for i := 0 to |deduped|
      invariant dedupeSaved == DedupeSaved(deduped[..i])
    {
      var d := deduped[i];
      assert deduped[..i + 1][..i] == deduped[..i];
      dedupeSaved := dedupeSaved + (d.before - d.after);
    }
    assert deduped[..|deduped|] == deduped;
    for i := 0 to |compacted|
      invariant compactSaved == CompactSaved(compacted[..i]) && truncated == TruncatedCount(compacted[..i])
    {
      var c := compacted[i];
      assert compacted[..i + 1][..i] == compacted[..i];
      compactSaved := compactSaved + (c.before - c.after);
      if c.truncated {
        truncated := truncated + 1;
      }
    }
    assert compacted[..|compacted|] == compacted;
  }

  lemma {:induction false} TruncatedCountIs(r: seq<Compact.Entry>)
    ensures TruncatedCount(r) == |set i: nat | i < |r| && r[i].truncated|
  {
    if r != [] {
      var n := |r| - 1;
      TruncatedCountIs(r[..n]);
      var now, before := set i: nat | i < |r| && r[i].truncated, set i: nat | i < n && r[..n][i].truncated;
      assert now == before + if r[n].truncated then {n} else {};
    }
  }

  /** Content bytes of the first k messages. */
  function BytesUpTo(msgs: seq<Message>, k: nat): nat
    requires k <= |msgs|
  {
    if k == 0 then 0 else BytesUpTo(msgs, k - 1) + |msgs[k - 1].content|
  }

  function ContentBytes(msgs: seq<Message>): nat {
    BytesUpTo(msgs, |msgs|)
  }

  /** Content bytes are the bytes of all contents in a row. */
  lemma ContentBytesAre(msgs: seq<Message>)
    ensures ContentBytes(msgs) == |Flat(seq(|msgs|, i requires 0 <= i < |msgs| => msgs[i].content))|
  {
    BytesUpToAre(msgs, |msgs|);
  }

  lemma {:induction false} BytesUpToAre(msgs: seq<Message>, k: nat)
    requires k <= |msgs|
    ensures BytesUpTo(msgs, k) == |Flat(seq(k, i requires 0 <= i < k => msgs[i].content))|
  {
    if k > 0 {
      BytesUpToAre(msgs, k - 1);
      var contents := seq(k, i requires 0 <= i < k => msgs[i].content);
      assert contents[..k - 1] == seq(k - 1, i requires 0 <= i < k - 1 => msgs[i].content);
    }
  }

  lemma DedupeSavedNext(r: seq<Dedupe.Entry>, more: seq<Dedupe.Entry>)
    requires |more| <= 1
    ensures DedupeSaved(r + more) == DedupeSaved(r) + (if more == [] then 0 else more[0].before - more[0].after)
  {
    if more == [] {
      assert r + more == r;
    } else {
      assert (r + more)[..|r|] == r;
    }
  }

  lemma CompactSavedNext(r: seq<Compact.Entry>, more: seq<Compact.Entry>)
    requires |more| <= 1
    ensures CompactSaved(r + more) == CompactSaved(r) + (if more == [] then 0 else more[0].before - more[0].after)
  {
    if more == [] {
      assert r + more == r;
    } else {
      assert (r + more)[..|r|] == r;
    }
  }

  /** The entries for messages k and up account for the bytes saved in them. */
  lemma {:induction false} DedupeAccounts(msgs: seq<Message>, k: nat)
    requires k <= |msgs|
    ensures var d := Dedupe.DedupeAll(msgs);
            DedupeSaved(Dedupe.Report(msgs, k))
            == ContentBytes(msgs) - ContentBytes(d) - (BytesUpTo(msgs, k) - BytesUpTo(d, k))
    decreases |msgs| - k
  {
    if k < |msgs| {
      DedupeAccounts(msgs, k + 1);
      DedupeSavedNext(Dedupe.Report(msgs, k + 1), if Dedupe.Stubbed(msgs, k) then [Dedupe.EntryFor(msgs, k)] else []);
      assert Dedupe.DedupeAll(msgs)[k] == Dedupe.DedupeMessage(msgs, k);
    }
  }

  /** The entries for the first k messages account for the bytes saved in them. */
  lemma {:induction false} CompactAccounts(msgs: seq<Message>, k: nat)
    requires k <= Compact.Cutoff(|msgs|)
    ensures CompactSaved(Compact.Report(msgs, k)) == BytesUpTo(msgs, k) - BytesUpTo(Compact.CompactAll(msgs), k)
  {
    if k > 0 {
      CompactAccounts(msgs, k - 1);
      CompactSavedNext(Compact.Report(msgs, k - 1), Compact.Entries(k - 1, msgs[k - 1]));
    }
  }

  lemma {:induction false} SameTail(a: seq<Message>, b: seq<Message>, k: nat, n: nat)
    requires k <= n <= |a| && n <= |b|
    requires forall i :: k <= i < n ==> a[i] == b[i]
    ensures BytesUpTo(a, n) - BytesUpTo(b, n) == BytesUpTo(a, k) - BytesUpTo(b, k)
    decreases n
  {
    if k < n {
      SameTail(a, b, k, n - 1);
    }
  }

  /** For every request, the content bytes before minus after are exactly the two audited sums. */
  lemma ExactAudit(msgs: seq<Message>)
    ensures ContentBytes(msgs) - ContentBytes(Forward(msgs)) ==
            DedupeSaved(Dedupe.Report(msgs, 0))
            + CompactSaved(Compact.Report(Dedupe.DedupeAll(msgs), Compact.Cutoff(|msgs|)))
  {
    var d, k := Dedupe.DedupeAll(msgs), Compact.Cutoff(|msgs|);
    DedupeAccounts(msgs, 0);
    CompactAccounts(d, k);
    SameTail(d, Forward(msgs), k, |d|);
  }

  /** The entry gives the role and the two sizes of the message, and the second is smaller. */
  predicate Describes(e: Compact.Entry, m: Message) {
    && e.role == m.role && e.before == |m.content|
    && e.after == |Compact.CompactMessage(m).content| < e.before
  }

  lemma EntryOf(index: nat, m: Message, e: Compact.Entry)
    requires e in Compact.Entries(index, m)
    ensures e.index == index && Describes(e, m)
  {
  }

  /** Every compaction entry names its message, gives its true sizes, and shrinks it. */
  lemma {:induction false} CompactEntry(msgs: seq<Message>, k: nat, e: Compact.Entry)
    requires k <= |msgs| && e in Compact.Report(msgs, k)
    ensures e.index < k && Describes(e, msgs[e.index])
  {
    var i := Compact.EntrySource(msgs, k, e);
    EntryOf(i, msgs[i], e);
  }

  lemma StubbedStays(msgs: seq<Message>, i: nat)
    requires i < |msgs| && Dedupe.Stubbed(msgs, i)
    ensures Compact.CompactMessage(Dedupe.DedupeAll(msgs)[i]).content == Dedupe.DedupeAll(msgs)[i].content
  {
    assert Dedupe.DedupeAll(msgs)[i] == Dedupe.DedupeMessage(msgs, i);
    Conversation.StubFixed(msgs[i].role);
  }

  /** A message that compaction reports is none that deduplication stubbed. */
  lemma CompactedIsUnstubbed(msgs: seq<Message>, c: Compact.Entry)
    requires c in Compact.Report(Dedupe.DedupeAll(msgs), Compact.Cutoff(|msgs|))
    ensures c.index < |msgs| && !Dedupe.Stubbed(msgs, c.index) && c.after < c.before
  {
    CompactEntry(Dedupe.DedupeAll(msgs), Compact.Cutoff(|msgs|), c);
    if Dedupe.Stubbed(msgs, c.index) {
      StubbedStays(msgs, c.index);
    }
  }

  /** No message is in both reports. */
  lemma ReportsDisjoint(msgs: seq<Message>, d: Dedupe.Entry, c: Compact.Entry)
    requires d in Dedupe.Report(msgs, 0) && c in Compact.Report(Dedupe.DedupeAll(msgs), Compact.Cutoff(|msgs|))
    ensures d.index != c.index && c.after < c.before
  {
    Dedupe.ReportExact(msgs, 0);
    CompactedIsUnstubbed(msgs, c);
  }

  /** A deduplication entry grows its message exactly when the output it replaces is
      shorter than the 88 bytes of the stub. */
  lemma DedupeEntryGrows(msgs: seq<Message>, e: Dedupe.Entry)
    requires e in Dedupe.Report(msgs, 0)
    ensures e.index < |msgs| && e.before == |msgs[e.index].content| && e.after == 88
    ensures e.toolCallID == msgs[e.index].toolCallID
    ensures e.after > e.before <==> |msgs[e.index].content| < 88
  {
    Dedupe.ReportExact(msgs, 0);
    Conversation.StubEnds();
  }

  lemma StubbedEntry(msgs: seq<Message>, i: nat) returns (d: Dedupe.Entry)
    requires i < |msgs| && Dedupe.Stubbed(msgs, i)
    ensures d in Dedupe.Report(msgs, 0) && d.before == |msgs[i].content| && d.after >= 2
  {
    Dedupe.ReportExact(msgs, 0);
    d :| d in Dedupe.Report(msgs, 0) && d.index == i;
  }

  /** Such an entry: an empty output. */
  lemma DedupeEntryMayGrow()
    ensures exists msgs, d :: d in Dedupe.Report(msgs, 0) && d.after > d.before
  {
    var a := [Conversation.Call([1], [7]), Conversation.Call([2], [7]),
              Conversation.ResultOf([1]), Conversation.ResultOf([2])];
    Conversation.BindingsOf(a, a + [Conversation.Call([2], [8])]);
    assert Dedupe.SameResult(a, 2, 3);
    var d := StubbedEntry(a, 2);
  }
}
