# Verified model of thin

Thin is an HTTP proxy that rewrites the chat requests of coding agents before they
reach the model provider. A client re-sends its whole history every turn; thin stubs
repeated tool results, compacts old messages, drops tool definitions that a session
never used, and measures how much of the request stayed the same.

This project models the passes, the per-session state, the response window and the
request codec in Dafny, and proves what they guarantee for every request, every
conversation, every interleaving of handlers and every way a response can be cut into
chunks. `dafny verify dfyconfig.toml` checks all of it.

## How it is organised

| file | what it models |
|---|---|
| `ByteStrings.dfy` | byte strings, decimal notation |
| `Utf8.dfy`, `JsonString.dfy`, `JsonLiteral.dfy` | UTF-8 and the JSON string codec of Go 1.22, byte by byte |
| `Cleanup.dfy` | the two regular expressions, the trim, and their rewriting system |
| `Messages.dfy` | messages, tools and the request object |
| `Compact.dfy`, `CompactLaws.dfy` | the compaction pass and its laws |
| `Dedupe.dfy` | the deduplication pass, its quadratic specification and its laws |
| `Repeated.dfy` | the repeated-call report |
| `Sessions.dfy`, `SessionId.dfy` | session store, session state, implicit session IDs |
| `Prune.dfy`, `Interleaving.dfy` | the pruning pass, and its safety with many handlers on one session |
| `Fingerprint.dfy`, `ShapeCache.dfy` | FNV-1a fingerprints and the stable prefix |
| `Pipeline.dfy` | one request through all passes |
| `Conversation.dfy`, `Audit.dfy` | whole conversations, and the byte audit |
| `Usage.dfy`, `Capture.dfy` | the cache-signal scanner and the sliding response window |
| `AnthropicDedupe.dfy`, `AnthropicCompact.dfy` | the passes over blocks nested in messages |
| `Wire.dfy`, `WireFields.dfy` | the split of objects into known and passed-through fields, and its inverse |

Code that overwrites messages, tools, blocks, sessions or buffers is modelled by methods
on arrays and classes; each is proved equal to a specification function on sequences,
and the laws are lemmas about those functions. What a specification function means is
said once more in terms of literal bytes, literal numbers and the fields of its input
(mostly lemmas named `...Exactly`, `...Exact`, `...At`, `...Read` and `...Written`).

Some natural expectations fail. For each there is an input and the exact condition:

- One compaction is not a fixpoint (`CompactLaws.OneIsNotEnough`).
  `CompactLaws.OneApplication` gives the condition on the input.
- A second deduplication changes nothing, but its report can be non-empty:
  `Dedupe.SecondReport` says when, in terms of the original messages, and
  `Dedupe.ThreeRepeats` gives a common case.
- A stub can revert when a later message rebinds a tool-call ID
  (`Conversation.RebindingUnstubs`). `Conversation.StubsStayExactly`: no stub can revert
  iff IDs that stood for one call still stand for one call. All results about whole
  conversations assume only that; `Conversation.FreshIdsGrow` is a condition on the
  appended calls that implies it.
- The check for a cache hit and the drop of a tool are separate critical sections, so a
  tool can be dropped after another handler has recorded a hit
  (`Interleaving.CacheHitGateIsNotAtomic`). `Interleaving.DropUnderHit` says, for every
  drop of every run, when that is so.
- A deduplication entry can grow its message (`Audit.DedupeEntryMayGrow`): exactly when
  the replaced output is shorter than the stub (`Audit.DedupeEntryGrows`).
- The stub of the block version says that the identical output "appears later in this
  conversation". Inside one message the code keeps the earlier block and stubs the later
  one, so nothing need follow (`AnthropicDedupe.StubPointsNowhere`).
  `AnthropicDedupe.StubTellsTruth`: the text is true of the kept copy iff a later message
  repeats the result. The model follows the code.

## Model

| member | source | states |
|---|---|---|
| Cleanup.CleanIsUniqueNormalForm | internal/pipeline/compact_history.go:84-86 | the three-pass cleanup of s is reached from s by finitely many uses of the three rules (drop a blank before a newline, drop one of three newlines, drop a final blank or newline), no rule applies to it, and it is the only such text, whatever rules are used in whatever order |
| Cleanup.RewriteKeepsClean | internal/pipeline/compact_history.go:84-86 | one use of a rule anywhere in a text never changes what the cleanup returns |
| Cleanup.CleanIsNormal | internal/anthropic/compact_history.go:152-156 | the three left-to-right passes agree with one right-to-left evaluation |
| Cleanup.CleanFixpoint | internal/pipeline/compact_history.go:84-104 | a text is left alone exactly when no rule applies to it; the cleanup is idempotent |
| Cleanup.CleanKeepsInk | internal/pipeline/compact_history.go:84-86 | all bytes other than space, tab and newline survive in order, and any change shortens the text |
| Cleanup.RewritesExactly | internal/pipeline/compact_history.go:28-33 | the rules in literal bytes: space or tab before a newline, three newlines to two, a final space, tab or newline |
| Cleanup.ReachesExactly | internal/pipeline/compact_history.go:84-86 | reaching is a finite chain of single uses, and a text is irreducible iff no use applies |
| Cleanup.InkExactly | internal/pipeline/compact_history.go:84-86 | ink is every byte but 0x20, 0x09 and 0x0A, in order |
| Utf8.SanitizeValid | internal/pipeline/compact_history.go:74-78 | decoding yields valid UTF-8 (section 4 of RFC 3629) |
| Utf8.SanitizeFixpoint | internal/pipeline/compact_history.go:74-78 | decoding changes a text exactly when it is not valid UTF-8 |
| Utf8.CutPoints | internal/pipeline/compact_history.go:92-96 | cutting valid UTF-8 anywhere leaves at most three bytes of a broken character on either side of the cut |
| JsonString.RoundTrip | internal/pipeline/compact_history.go:110 | unmarshalling a marshalled string returns it, with U+FFFD for its invalid bytes |
| JsonString.DecodedIsValid | internal/pipeline/compact_history.go:74-78 | every string that unmarshals is valid UTF-8 and at most three times as long as its raw content |
| JsonString.EncodeConcat | internal/pipeline/compact_history.go:110 | the encoding splits at every character boundary |
| JsonLiteral.RunesExactly | internal/pipeline/compact_history.go:74-78 | a text starts with a valid character iff it starts with the UTF-8 form of a code point that is no surrogate (section 3 of RFC 3629) |
| JsonLiteral.AsciiWritten | internal/pipeline/compact_history.go:110 | what each byte below 0x80 is written as, escapes of quote, backslash, control bytes, <, > and & included |
| JsonLiteral.RuneWritten | internal/pipeline/compact_history.go:110 | other characters are written as they are, except U+2028 and U+2029 |
| JsonLiteral.InvalidWritten | internal/pipeline/compact_history.go:110 | a byte that starts no character is written as an escaped U+FFFD |
| JsonLiteral.LettersRead | internal/pipeline/compact_history.go:74-78 | the eight escapes of one character, and no others |
| JsonLiteral.RawBytesRead | internal/pipeline/compact_history.go:74-78 | a raw control byte is an error, other ASCII bytes stand for themselves |
| JsonLiteral.PairRead | internal/pipeline/compact_history.go:74-78 | every surrogate pair is read as its one code point |
| JsonLiteral.EscapeRead | internal/pipeline/compact_history.go:74-78 | a single escape is read as its code point, a lone surrogate as U+FFFD |
| JsonLiteral.SpaceAround | internal/pipeline/compact_history.go:74-78 | the four white-space bytes around a value do not matter |
| JsonLiteral.OnlyQuoted | internal/pipeline/compact_history.go:74-78 | null reads as the empty text; nothing else without an opening quote is a string |
| Compact.CompactInPlace | internal/pipeline/compact_history.go:70-126 | the in-place rewrite of one message: non-strings and rewrites that do not shrink are left alone, only the content changes, and the entry gives both sizes |
| Compact.CompactHistoryWithReport | internal/pipeline/compact_history.go:50-65 | exactly the messages older than the last six are compacted in place, said with the literal six, and the report lists the changed ones in order |
| Compact.CompactsOlder | internal/pipeline/compact_history.go:50-65 | message i is compacted iff more than six messages follow it counting itself, that is i + 6 < n; the last six are left alone |
| Compact.CutExactly | internal/pipeline/compact_history.go:88-102 | a text is cut iff the role is "tool" and its cleaned form has more than 4000 bytes, to its first 800 and last 400 bytes around the note |
| Compact.RewrittenExactly | internal/pipeline/compact_history.go:103-117 | a content changes iff it is a string, its text changes and the new encoding is shorter; nothing else of the message changes |
| Compact.ReportExact | internal/pipeline/compact_history.go:56-65 | the report lists exactly the changed messages, oldest first, with role, both sizes and the truncation flag |
| CompactLaws.TruncatedLength | internal/pipeline/compact_history.go:92-102 | a truncated text has 1283 bytes plus the digits of the omitted length and is shorter than its input |
| CompactLaws.TruncatedParts | internal/pipeline/compact_history.go:92-102 | a truncated text keeps the first 800 and the last 400 bytes, and the number in its marker is the number of bytes left out |
| CompactLaws.CleanValid | internal/pipeline/compact_history.go:84-86 | cleaning valid text keeps it valid, and any change shrinks its JSON encoding |
| CompactLaws.TruncatedEncoding | internal/pipeline/compact_history.go:92-116 | truncating valid text shrinks its JSON encoding, stray bytes at the cuts included |
| CompactLaws.CanonicalCompaction | internal/pipeline/compact_history.go:106-117 | on contents that json.Marshal would write, the size gate never rejects a rewrite |
| CompactLaws.TruncatedStaysShort | internal/pipeline/compact_history.go:92-102 | a truncated content decodes to at most 1315 bytes, so it is never truncated again |
| CompactLaws.SeamsDecide | internal/pipeline/compact_history.go:92-102 | a truncated clean text needs another cleaning exactly when the head ends in white space or the tail starts with a newline |
| CompactLaws.OneApplication | internal/pipeline/compact_history.go:70-126 | one application reaches a fixpoint iff it is not the case that the message is a tool output over the threshold, the cut leaves white space at a seam, and the truncated encoding is shorter than the raw content; the condition is decided by the guards of the code on the input |
| CompactLaws.TwoApplications | internal/pipeline/compact_history.go:70-126 | two applications always reach a fixpoint |
| CompactLaws.OneIsNotEnough | internal/pipeline/compact_history.go:92-102 | a concrete tool output that changes again on the second application |
| Dedupe.HashCallInjective | internal/pipeline/dedupe_tool_results.go:95-101 | for names without NUL the hashed bytes determine name and arguments |
| Dedupe.IndexCalls | internal/pipeline/dedupe_tool_results.go:43-51 | the map has exactly the IDs of assistant calls, each with the hashed form of its last call |
| Dedupe.BindingExact | internal/pipeline/dedupe_tool_results.go:43-51 | an ID is bound iff some assistant call has it, and then to the last such call, parallel calls of one message included |
| Dedupe.LastCallBinds | internal/pipeline/dedupe_tool_results.go:44-51 | the same in full for the last call with an ID, parallel calls of one message included |
| Dedupe.UnboundId | internal/pipeline/dedupe_tool_results.go:44-51 | an ID that no assistant call has is not bound |
| Dedupe.StubbedExactly | internal/pipeline/dedupe_tool_results.go:59-80 | a message is stubbed iff it and a later one are tool results with equal contents whose non-empty IDs were last bound to calls with the same hashed form |
| Dedupe.DedupeToolResultsWithReport | internal/pipeline/dedupe_tool_results.go:41-93 | the reverse walk over the nested map stubs, in place, exactly the results that a later message repeats, and reports them |
| Dedupe.StubIsEncoded | internal/pipeline/dedupe_tool_results.go:79-83 | the stub is the JSON encoding of its text |
| Dedupe.ExactlyLastKept | internal/pipeline/dedupe_tool_results.go:54-92 | a result is stubbed iff a later result has the same call and the same original content; each pair keeps its last occurrence and no other |
| Dedupe.ReportExact | internal/pipeline/dedupe_tool_results.go:59-92 | the report lists exactly the stubbed messages, with ID and sizes, in strictly descending order |
| Dedupe.DedupeIdempotent | internal/pipeline/dedupe_tool_results.go:57-92 | a second run changes no message, for every input |
| Dedupe.OnlyStubsRepeat | internal/pipeline/dedupe_tool_results.go:57-92 | after one run a message repeats a later one iff both are results of one call and each of them was stubbed by the run or held the stub before |
| Dedupe.SecondReport | internal/pipeline/dedupe_tool_results.go:57-92 | the second report is non-empty iff, in the original messages, two results of one call are each repeated later or hold the stub already |
| Dedupe.ThreeRepeats | internal/pipeline/dedupe_tool_results.go:57-92 | it is non-empty whenever three results of one call have the same content |
| Repeated.Record | internal/pipeline/repeated_tool_calls.go:25-34 | the mutable per-key record of one call is created or updated, and no other key shares it |
| Repeated.RepeatedToolCalls | internal/pipeline/repeated_tool_calls.go:13-47 | the report has one entry for each call with two or more assistant occurrences, in first-appearance order, with count, first and last message |
| Repeated.ReportMeans | internal/pipeline/repeated_tool_calls.go:38-46 | what a report lists, in full: first positions of the calls that occur at least twice, ascending, with name, count, first and last message |
| Repeated.StatisticExact | internal/pipeline/repeated_tool_calls.go:24-35 | the running record of a key is the quadratic report of its calls so far |
| Repeated.ReportUnique | internal/pipeline/repeated_tool_calls.go:38-46 | the calls of a request determine its report |
| Repeated.CallsAscend | internal/pipeline/repeated_tool_calls.go:22-35 | first and last occurrence carry the least and the greatest message index |
| Repeated.CallsAt | internal/pipeline/repeated_tool_calls.go:22-35 | every call of every assistant message is listed once, in order, with its message, name and hashed form |
| Sessions.Store.Get | internal/session/session.go:43-52 | the session of an ID, created on first use; no two IDs share one and no other session changes |
| Sessions.Session.ObserveToolCalls | internal/session/session.go:81-88 | one more turn, and one more count for each name |
| Sessions.CountNamesAdds | internal/session/session.go:81-88 | each count grows by the number of occurrences of its name |
| Sessions.ObserveExactly | internal/session/session.go:81-88 | one turn more, each name counted, fingerprints and cache-hit flag kept |
| Sessions.Session.HasUsedTool | internal/session/session.go:71-75 | whether the count of a name is positive |
| Sessions.Session.RecordCacheHit | internal/session/session.go:114-118 | changes the cache-hit flag and nothing else |
| Sessions.Session.RecordMessageFingerprints | internal/session/session.go:104-108 | changes the fingerprints and nothing else |
| SessionId.IDForRequest | internal/session/session.go:144-181 | the first sixteen hexadecimal digits of the digest of the bytes fed to the hasher, for any 32-byte hash function, or "anon" |
| SessionId.HashedBytes | internal/session/session.go:155-179 | hashed are model, system field, the first message from the system or the user with its role, and the first user message, with their separators |
| SessionId.HashedWithoutUser | internal/session/session.go:155-179 | the same without a user message, and without any opening message |
| SessionId.SystemSeparates | internal/session/session.go:163-170 | conversations that begin with different system messages hash different bytes |
| SessionId.IdIs | internal/session/session.go:180 | the ID is the lower-case hexadecimal form of the first eight digest bytes |
| SessionId.Affinity | internal/session/session.go:160-181 | what is hashed never changes under appended messages iff the conversation already has a user message |
| SessionId.IdStays | internal/session/session.go:144-181 | with a user message the ID stays the same whatever is appended, for every hash function |
| SessionId.SameId | internal/session/session.go:180 | two IDs are equal iff the first eight bytes of the digests are, and no ID of a readable request is "anon" |
| SessionId.SameIdMeansSameStart | internal/session/session.go:155-181 | for a NUL-free model and raw contents without bytes 0 and 1, two hash inputs are equal iff model, system field, first system-or-user message and first user content are |
| Prune.FilterInPlace | internal/pipeline/prune_tools.go:65-79 | writing kept tools into the slice being read overwrites no unread tool: the prefix left is exactly the kept tools, in order |
| Prune.PruneToolsWithReport | internal/pipeline/prune_tools.go:39-80 | leaves exactly the kept tools in order and reports the dropped names, never that of a call in the request; nothing changes without tools, before three turns or after a cache hit |
| Prune.PositionsSelect | internal/pipeline/prune_tools.go:65-79 | kept and dropped tools are order-preserving subsequences that partition the original |
| Prune.DroppedExactly | internal/pipeline/prune_tools.go:66-77 | a tool goes iff its name is not protected, not forced, in no call of the request and was never counted in the session; otherwise it is kept |
| Prune.CollectUsed | internal/pipeline/prune_tools.go:58-63 | a name is collected iff it is forced or some call of some message has it |
| Interleaving.EveryRunIsSafe | internal/pipeline/prune_tools.go:39-80 | under every interleaving of handlers a dropped tool was in none of the histories observed when it was checked, at least three had been observed including the handler's own, and it was neither protected nor forced nor called; turns and counts equal the observed log |
| Interleaving.EveryDropIsSafe | internal/pipeline/prune_tools.go:39-80 | the same in full for each dropped tool of each run, with the exact counters |
| Interleaving.StepSafe | internal/pipeline/pipeline.go:58-97 | each action of each handler keeps that invariant |
| Interleaving.AloneRefinesPass | internal/pipeline/prune_tools.go:65-79 | the checks of a handler that is not disturbed keep and drop what the sequential filter does |
| Interleaving.AloneIsApply | internal/pipeline/pipeline.go:58-97 | a handler that runs alone from its first to its last step before the response leaves the session state, and the kept and dropped tools, that `Pipeline.Pipeline.Apply` promises, gates included |
| Interleaving.HitAfterGate | internal/pipeline/prune_tools.go:50-52 | whatever actions follow a passed cache-hit gate, the session shows a hit iff the last response recorded among them exists and is a hit |
| Interleaving.DropUnderHit | internal/pipeline/prune_tools.go:43-80 | for every tool dropped in any run, its handler passed the gate while the last response was no hit, and the session shows a hit at the drop iff the last response recorded between gate and drop, always by another handler, is a hit |
| Interleaving.CacheHitGateIsNotAtomic | internal/pipeline/prune_tools.go:43-52 | the other side of that condition is reachable: a run in which a tool is dropped while the last recorded response is a cache hit |
| Fingerprint.Fnv64 | internal/pipeline/shape_cache.go:53-66 | the nested loops hash the NUL-terminated concatenation of the parts byte by byte |
| Fingerprint.StepExactly | internal/pipeline/shape_cache.go:54-62 | offset and prime, exclusive or bit by bit, multiplication modulo 2^64 |
| Fingerprint.StepBijective | internal/pipeline/shape_cache.go:59-60 | each step is a bijection of the 64-bit hashes, with an explicit inverse |
| Fingerprint.OneByteNeverCollides | internal/pipeline/shape_cache.go:53-66 | equal-length concatenations that differ in exactly one byte have different fingerprints |
| Fingerprint.CoversFields | internal/pipeline/shape_cache.go:42-48 | a fingerprint covers role, raw content, name and tool-call ID, in this order |
| Fingerprint.OneByteOfMessage | internal/pipeline/shape_cache.go:42-66 | messages that differ in one byte of these fields have different fingerprints |
| Fingerprint.FingerprintMessages | internal/pipeline/shape_cache.go:42-48 | one fingerprint for each message, in order |
| ShapeCache.ShapeForCache | internal/pipeline/shape_cache.go:18-40 | records the new fingerprints and reports whether the common prefix with the previous ones is non-empty |
| ShapeCache.ReportedExactly | internal/pipeline/shape_cache.go:26-38 | a prefix is reported iff an earlier request had messages and the first fingerprints are equal |
| ShapeCache.CommonPrefixIs | internal/pipeline/shape_cache.go:29-37 | the counted prefix is the longest common one |
| Pipeline.ToolCallNames | internal/pipeline/pipeline.go:101-109 | all tool-call names, in message order: a name is listed iff some call has it, and as many names as calls |
| Messages.CallNamesAt | internal/pipeline/pipeline.go:101-109 | the name of call j of message i stands at the position given by the number of calls before it |
| Messages.CallNamesExact | internal/pipeline/pipeline.go:101-109 | a name is listed iff some call of some message has it |
| Pipeline.PrunedExactly | internal/pipeline/pipeline.go:68-74 | tools go only with pruning enabled, after three turns and without a last cache hit, and then exactly those whose name nothing keeps |
| Pipeline.PassesExactly | internal/pipeline/pipeline.go:70-94 | a pass is named iff it did something, in the order the passes run |
| Pipeline.Pipeline.Apply | internal/pipeline/pipeline.go:58-97 | one request through all passes in order: forwarded messages, kept tools, the session's new state and every report |
| Pipeline.Pipeline.constructor | internal/pipeline/pipeline.go:32-40 | a name is protected iff it is listed and not empty |
| Conversation.StubFixed | internal/pipeline/compact_history.go:70-126 | the stub is a fixpoint of compaction |
| Conversation.ForwardedForm | internal/pipeline/pipeline.go:76-88 | a forwarded message is the original, compacted or stubbed, and only its content differs |
| Conversation.ForwardedExactly | internal/pipeline/pipeline.go:76-88 | a repeated result is forwarded as the stub, another message compacted iff at least six follow it, and untouched otherwise |
| Conversation.MonotoneRun | internal/pipeline/pipeline.go:58-97 | over any append-only conversation that keeps the IDs of one call together, a message is forwarded as the original, then with its compacted content, then with the stub, with turns a and b between, and nothing else of it changes |
| Conversation.AtMostTwoChanges | internal/pipeline/pipeline.go:58-97 | the forwarded content of a message changes at most twice |
| Conversation.FreshIdsGrow | internal/pipeline/dedupe_tool_results.go:43-51 | appended assistant calls that are new or repeat the call of their ID rebind nothing, so they keep the IDs of one call together |
| Conversation.StubsStayExactly | internal/pipeline/dedupe_tool_results.go:43-92 | appended messages keep every stub, for every choice of tool results before them, iff IDs that stood for one call still stand for one call afterwards |
| Conversation.RebindingUnstubs | internal/pipeline/dedupe_tool_results.go:43-92 | the other side of that condition: an input where a stub turns back into its original |
| Conversation.StablePrefix | internal/pipeline/shape_cache.go:18-38 | when a history grows, the forwarded messages older than the first recency window agree iff every one of them that becomes a stub was forwarded as the stub already |
| Conversation.StablePrefixMeasured | internal/pipeline/shape_cache.go:26-38 | without new stubs there the measured prefix is at least n-6, so it is reported for n > 6 |
| Audit.Sums | cmd/thin/main.go:554-564 | the logged sums are the sums over the two reports |
| Audit.TruncatedCountIs | cmd/thin/main.go:554-564 | the truncation count is the number of entries with the flag |
| Audit.ExactAudit | cmd/thin/main.go:554-564 | content bytes before minus after equal the signed sum of both reports, for every request |
| Audit.ContentBytesAre | cmd/thin/main.go:554-564 | content bytes are the bytes of all contents in a row |
| Audit.ReportsDisjoint | internal/pipeline/pipeline.go:78-88 | no message is in both reports |
| Audit.CompactEntry | internal/pipeline/compact_history.go:110-125 | every compaction entry has the role and both sizes of its message and strictly shrinks it |
| Audit.DedupeEntryGrows | internal/pipeline/dedupe_tool_results.go:79-91 | every deduplication entry has the true sizes, and grows its message iff the replaced content is shorter than the 88 bytes of the stub |
| Audit.DedupeEntryMayGrow | internal/pipeline/dedupe_tool_results.go:82-91 | such an entry exists: a request with an empty repeated output |
| Usage.ScanIntAfter | internal/usage/usage.go:53-72 | the number after the last occurrence of the key, in wrapping 64-bit arithmetic, or no signal |
| Usage.ExtractCacheHit | internal/usage/usage.go:40-48 | the OpenAI key first, then the Anthropic key |
| Usage.ScanReadsDecimal | internal/usage/usage.go:53-72 | white space and the decimal form of n behind the last key, up to a non-digit or the end, read as n for every n below 2^63 |
| Usage.OpenAISignal | internal/usage/usage.go:33-72 | the number behind the last "cached_tokens": is the signal, whatever else the body holds |
| Usage.AnthropicSignal | internal/usage/usage.go:33-72 | without that key it is the number behind the last "cache_read_input_tokens": |
| Usage.NoNumber | internal/usage/usage.go:59-64 | a key followed by white space and no digit gives no number |
| Usage.NoSignal | internal/usage/usage.go:40-48 | without either key there is no signal |
| Usage.NumberBetween | internal/usage/usage.go:59-71 | the value is that of the maximal digit run, modulo 2^64 |
| Usage.EarlierBytesIrrelevant | internal/usage/usage.go:54-58 | bytes in front of the last occurrence never matter |
| Usage.WindowScan | internal/usage/usage.go:53-72 | scanning a window agrees with scanning the whole body when the key's last occurrence starts inside the window or is absent, and reports no signal otherwise |
| Usage.WindowExtract | internal/usage/usage.go:40-48 | exactly what the window reports for both keys, and that it is the whole body's signal when that signal is visible |
| Capture.CaptureWriter.Write | cmd/thin/main.go:670-689 | status, byte count and the last 8192 bytes of everything written |
| Capture.CaptureWriter.Append | cmd/thin/main.go:679-681 | append over the backing array, in place or in a larger one |
| Capture.CaptureWriter.DropFront | cmd/thin/main.go:682-686 | the overlapping copy keeps the last bytes |
| Capture.CaptureWriter.OutputTokensEstimate | cmd/thin/main.go:695-697 | a quarter of all bytes written |
| Capture.ChunkingIrrelevant | cmd/thin/main.go:670-689 | however a response is cut into chunks the window is the last 8192 bytes of the whole |
| Capture.WindowExactly | cmd/thin/main.go:676-687 | all of a response of at most 8192 bytes, the last 8192 bytes of a longer one |
| Capture.HitExactly | cmd/thin/main.go:314-319 | a response is a hit iff the number behind its key is positive; no signal is no hit |
| Capture.RecordSignal | cmd/thin/main.go:314-319 | records a hit iff the window shows a positive count, which is the whole body's answer when its signal is visible |
| Capture.SignalOfChunks | cmd/thin/main.go:314-319 | the signal read after any chunks is that of the whole body when visible, in particular for bodies of at most 8192 bytes |
| AnthropicDedupe.DedupeToolResultsWithReport | internal/anthropic/dedupe_tool_results.go:23-89 | the walk over nested blocks stubs exactly the repeated results and writes back exactly the messages that have one |
| AnthropicDedupe.IndexBlocks | internal/anthropic/dedupe_tool_results.go:24-36 | the map has exactly the IDs of tool_use blocks of assistant messages, each with the hashed form of its last block |
| AnthropicDedupe.BindingExact | internal/anthropic/dedupe_tool_results.go:24-36 | an ID is bound iff a tool_use block of an assistant message has it, and then to the last such block |
| AnthropicDedupe.LastUseBinds | internal/anthropic/dedupe_tool_results.go:24-36 | the same in full for the last tool_use block with an ID |
| AnthropicDedupe.OccursExactly | internal/anthropic/dedupe_tool_results.go:40-60 | which blocks are results of a call with an output, in terms of roles, block types and IDs |
| AnthropicDedupe.ReportExact | internal/anthropic/dedupe_tool_results.go:69-77 | the report lists exactly the stubbed blocks with ID and sizes, messages newest first |
| AnthropicDedupe.ExactlyFirstScannedKept | internal/anthropic/dedupe_tool_results.go:38-88 | each call and output keeps exactly its first-scanned block, which lies in a later message or an earlier block of the same message than every other |
| AnthropicDedupe.StubTellsTruth | internal/anthropic/dedupe_tool_results.go:50-80 | a kept copy of a stubbed block lies after it in the conversation, as the stub says, iff a later message holds the same call and output |
| AnthropicDedupe.StubPointsNowhere | internal/anthropic/dedupe_tool_results.go:50-80 | the other side of that condition: two identical results in the newest message, the second stubbed with nothing after it |
| AnthropicDedupe.MessageKeepsTheRest | internal/anthropic/dedupe_tool_results.go:81-86 | a message without a stubbed block is unchanged; otherwise only its content is, written from its blocks |
| AnthropicDedupe.BlocksKeepTheRest | internal/anthropic/dedupe_tool_results.go:50-80 | of a block only the content changes, and only when it is stubbed |
| AnthropicCompact.CompactToolResult | internal/anthropic/compact_history.go:115-142 | the in-place rewrite of one tool result, with its two flags |
| AnthropicCompact.CompactInPlace | internal/anthropic/compact_history.go:51-113 | the rewrite of one message, string or blocks, behind the message-level size gate |
| AnthropicCompact.CompactHistoryWithReport | internal/anthropic/compact_history.go:36-49 | exactly the messages older than the last six are compacted, said with the literal six, and the changed ones reported |
| AnthropicCompact.RewrittenExactly | internal/anthropic/compact_history.go:51-113 | a content changes iff it is a string or a block list that changes and whose new form is shorter |
| AnthropicCompact.BlockExactly | internal/anthropic/compact_history.go:80-100 | text blocks are cleaned, string contents of tool results cleaned and cut like tool outputs, other blocks kept |
| AnthropicCompact.TruncatesExactly | internal/anthropic/compact_history.go:91-99 | the truncation flag is set iff some tool result has a cleaned text of more than 4000 bytes |
| AnthropicCompact.ReportExact | internal/anthropic/compact_history.go:41-49 | the report lists exactly the changed messages, oldest first, with role, both sizes and the truncation flag |
| AnthropicCompact.ChangedTextChangesContent | internal/anthropic/compact_history.go:133-141 | a text that changed is never written back as the same content |
| AnthropicCompact.CompactBlocksInPlace | internal/anthropic/compact_history.go:80-100 | the switch over all blocks, with the changed flag true iff the block list differs |
| AnthropicCompact.BlockKeepsTheRest | internal/anthropic/compact_history.go:82-98 | of a block only the text of a text block and the content of a tool result can change, and a text loses nothing but white space |
| AnthropicCompact.StringContent | internal/anthropic/compact_history.go:56-71 | a string content is treated as the OpenAI pass treats a message that is no tool result |
| AnthropicCompact.TwoApplicationsOfBlock | internal/anthropic/compact_history.go:80-98 | a block stops changing after two applications |
| AnthropicCompact.NormalBlocksCommute | internal/anthropic/compact_history.go:80-104 | compacting blocks and rewriting their raw values commute |
| AnthropicCompact.TwoApplicationsOfMessage | internal/anthropic/compact_history.go:51-113 | a message stops changing after two applications, size gate included, whatever raw values its blocks carry: written lists are read back with their raw values rewritten as json.Marshal does |
| Wire.FillExtra | internal/pipeline/types.go:100-105 | the loop collects exactly the fields outside the known names |
| Wire.Overlay | internal/pipeline/types.go:119-121 | the loop writes the passed-through fields over the known ones |
| Wire.RequestReceiver.UnmarshalJSON | internal/pipeline/types.go:87-107 | overwrites the whole receiver with the decoded value or leaves it alone on an error; what was read has no known name among its passed-through fields, and writing it keeps every unknown field of the data at request, message, tool-call, tool and function level |
| Wire.RequestReceiver.MarshalJSON | internal/pipeline/types.go:109-123 | the output reads back as the receiver iff no passed-through field, at any level, has a known name; passed-through fields are written as they are in any case |
| Wire.MessageReceiver.UnmarshalJSON | internal/pipeline/types.go:125-146 | overwrites the whole receiver with the decoded value or leaves it alone on an error; what was read has no known name among its passed-through fields, and writing it keeps every unknown field of the data at message and tool-call level |
| Wire.MessageReceiver.MarshalJSON | internal/pipeline/types.go:148-162 | the output reads back as the receiver iff no passed-through field, at any level, has a known name; passed-through fields are written as they are in any case |
| Wire.ToolCallReceiver.UnmarshalJSON | internal/pipeline/types.go:164-185 | overwrites the whole receiver with the decoded value or leaves it alone on an error; what was read has no known name among its passed-through fields, and writing it keeps every unknown field of the data at tool-call level |
| Wire.ToolCallReceiver.MarshalJSON | internal/pipeline/types.go:187-201 | the output reads back as the receiver iff no passed-through field, at any level, has a known name; passed-through fields are written as they are in any case |
| Wire.ToolReceiver.UnmarshalJSON | internal/pipeline/types.go:203-224 | overwrites the whole receiver with the decoded value or leaves it alone on an error; what was read has no known name among its passed-through fields, and writing it keeps every unknown field of the data at tool and function level |
| Wire.ToolReceiver.MarshalJSON | internal/pipeline/types.go:226-240 | the output reads back as the receiver iff no passed-through field, at any level, has a known name; passed-through fields are written as they are in any case |
| Wire.ToolFunctionReceiver.UnmarshalJSON | internal/pipeline/types.go:242-263 | overwrites the whole receiver with the decoded value or leaves it alone on an error; what was read has no known name among its passed-through fields, and writing it keeps every unknown field of the data at function level |
| Wire.ToolFunctionReceiver.MarshalJSON | internal/pipeline/types.go:265-279 | the output reads back as the receiver iff no passed-through field, at any level, has a known name; passed-through fields are written as they are in any case |
| Wire.ToolCallRoundTrip | internal/pipeline/types.go:164-201 | decoding an encoded tool call returns it iff its Extra is disjoint from the known names |
| Wire.MessageRoundTrip | internal/pipeline/types.go:125-162 | the same, in both directions, for a message with its tool calls |
| Wire.ToolRoundTrip | internal/pipeline/types.go:203-240 | the same, in both directions, for a tool with its function |
| Wire.ToolFunctionRoundTrip | internal/pipeline/types.go:242-279 | the same, in both directions, for a tool function |
| Wire.RequestRoundTrip | internal/pipeline/types.go:87-123 | decoding an encoded request returns it iff every Extra, at every level, is disjoint from the known names |
| Wire.ReencodeIdempotent | internal/pipeline/types.go:87-279 | encode-after-decode is idempotent and loses nothing that decoding saw |
| Wire.UnknownFieldsKept | internal/pipeline/types.go:87-279 | every unknown field survives unchanged at request, message, tool-call, tool and tool-function level, and none is added |
| WireFields.ToolCallFieldsRead | internal/pipeline/types.go:164-201 | how each known field of a tool call in arbitrary input is read, null and absent included, and that exactly the other fields pass through |
| WireFields.ToolCallFails | internal/pipeline/types.go:164-201 | reading a tool call object fails iff a known field has another JSON type or a nested value fails |
| WireFields.ToolCallWritten | internal/pipeline/types.go:164-201 | which fields a written tool call has, and their values |
| WireFields.MessageFieldsRead | internal/pipeline/types.go:125-162 | how each known field of a message in arbitrary input is read, null and absent included, and that exactly the other fields pass through |
| WireFields.MessageFails | internal/pipeline/types.go:125-162 | reading a message object fails iff a known field has another JSON type or a nested value fails |
| WireFields.MessageWritten | internal/pipeline/types.go:125-162 | which fields a written message has, and their values |
| WireFields.ToolFunctionFieldsRead | internal/pipeline/types.go:242-279 | how each known field of a tool function in arbitrary input is read, null and absent included, and that exactly the other fields pass through |
| WireFields.ToolFunctionFails | internal/pipeline/types.go:242-279 | reading a tool function object fails iff a known field has another JSON type or a nested value fails |
| WireFields.ToolFunctionWritten | internal/pipeline/types.go:242-279 | which fields a written tool function has, and their values |
| WireFields.ToolFieldsRead | internal/pipeline/types.go:203-240 | how each known field of a tool in arbitrary input is read, null and absent included, and that exactly the other fields pass through |
| WireFields.ToolFails | internal/pipeline/types.go:203-240 | reading a tool object fails iff a known field has another JSON type or a nested value fails |
| WireFields.ToolWritten | internal/pipeline/types.go:203-240 | which fields a written tool has, and their values |
| WireFields.RequestFieldsRead | internal/pipeline/types.go:87-123 | how each known field of a request in arbitrary input is read, null and absent included, and that exactly the other fields pass through |
| WireFields.RequestFails | internal/pipeline/types.go:87-123 | reading a request object fails iff a known field has another JSON type or a nested value fails |
| WireFields.RequestWritten | internal/pipeline/types.go:87-123 | which fields a written request has, and their values |
| WireFields.MessageOptionsWritten | internal/pipeline/types.go:148-162 | the optional fields of a written message are there iff they are not empty |
| WireFields.MessageCallsWritten | internal/pipeline/types.go:148-162 | the tool calls of a written message, in order |
| WireFields.NullAndOthers | internal/pipeline/types.go:87-279 | null reads as an empty value at every level, and any other value that is no object fails |

## Left out

- SHA-256: call and content keys are represented by the bytes that are hashed, so collisions are not modelled; for session IDs the hash function is a parameter.
- JSON documents as bytes: `Wire` works on JSON trees with distinct, exactly matched keys; case-insensitive matching and duplicate keys are not modelled.
- Wire.ToolCallRoundTrip: unknown fields inside the `function` object of a tool call are dropped by the code and are outside the claim.
- Wire.RequestReceiver.UnmarshalJSON: the receivers of nested values are decoded as values, not as objects inside the outer one; the distinction between a nil and an empty map or list is kept for `messages` only.
- AnthropicDedupe.DedupeToolResultsWithReport: how a block list is read from and written to raw bytes is a pair of arbitrary functions, so no byte audit is claimed there.
- AnthropicCompact.CompactInPlace: the same pair of functions; the text of reasons is not modelled.
- AnthropicCompact.RawForm: the rewriting of raw values by json.Marshal is any function with the three laws stated there.
- Prune.PruneToolsWithReport: the names that `tool_choice` forces are a set given with the request; parsing `tool_choice` is not modelled.
- Sessions.Session.ObserveToolCalls: turn counts and use counts are unbounded; wrap-around after 2^63 requests is not modelled.
- CompactLaws.TwoApplications: contents are at most 2^63-1 bytes long, the length of the longest Go slice.
- Capture.CaptureWriter.Append: a larger backing array has exactly the needed size; Go's growth policy is not modelled.
- Reason strings, log lines, audit files, floating-point percentages and all timing.
- HTTP routing, reverse proxying, flags, licences, the metrics database and token counting: I/O and thin wrappers over libraries.
- The Anthropic versions of pruning, repeated calls and prefix measurement, and of the pipeline that joins them: near copies of the modelled ones.
