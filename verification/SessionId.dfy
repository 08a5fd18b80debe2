// The implicit session ID (internal/session/session.go:144-181). The hash function is a
// parameter: any function from byte strings to 32 bytes.
module SessionId {
  import opened ByteStrings
  import JsonString
  import opened Messages

  datatype Turn = Turn(role: Bytes, content: Bytes)

  /** What is read back from the request: model, raw system field, and the messages. */
  datatype Chat = Chat(model: Bytes, system: Bytes, messages: seq<Turn>)

  predicate Opening(m: Turn) {
    m.role == SYSTEM || m.role == USER
  }

  function FirstOpening(msgs: seq<Turn>): (r: Option<Turn>)
    ensures r.Some? ==> Opening(r.value) && r.value in msgs
  {
    if msgs == [] then None else if Opening(msgs[0]) then Some(msgs[0]) else FirstOpening(msgs[1..])
  }

  /** The content of the first user message. */
  function FirstUser(msgs: seq<Turn>): (r: Option<Bytes>)
    ensures r.Some? ==> Turn(USER, r.value) in msgs
    ensures r.None? ==> forall m :: m in msgs ==> m.role != USER
  {
    if msgs == [] then None else if msgs[0].role == USER then Some(msgs[0].content) else FirstUser(msgs[1..])
  }

  function SystemPart(system: Bytes): Bytes {
    if system == [] then [] else SYSTEM + [0] + (system + [0])
  }

  function OpeningPart(first: Option<Turn>): Bytes {
    match first
    case None => []
    case Some(m) => m.role + [0] + m.content
  }

  function UserPart(user: Option<Bytes>): Bytes {
    match user
    case None => []
    case Some(content) => [1] + content
  }

  /** The bytes that are hashed. */
  function PreImage(chat: Chat): Bytes {
    chat.model + [0]
    + (SystemPart(chat.system) + OpeningPart(FirstOpening(chat.messages)) + UserPart(FirstUser(chat.messages)))
  }

  type Digest = Bytes -> Bytes

  const DIGEST_SIZE: nat := 32

  ghost predicate Sized(digest: Digest) {
    forall b :: |digest(b)| == DIGEST_SIZE
  }

  function HexHigh(b: byte): byte {
    JsonString.HexDigit(b / 16)
  }

  function HexLow(b: byte): byte {
    JsonString.HexDigit(b % 16)
  }

  /** hex.EncodeToString */
  function Hex(b: Bytes): (h: Bytes)
    ensures |h| == 2 * |b|
  {
    if b == [] then [] else Hex(b[..|b| - 1]) + [HexHigh(b[|b| - 1]), HexLow(b[|b| - 1])]
  }

  const ANON: Bytes := Ascii("anon")

  /** The ID: sixteen hexadecimal digits of the digest, or "anon" for a request that cannot be read back. */
  function IdOf(digest: Digest, chat: Option<Chat>): (id: Bytes)
    requires Sized(digest)
    ensures |id| == if chat.None? then 4 else 16
  {
    match chat
    case None => ANON
    case Some(c) => Hex(digest(PreImage(c)))[..16]
  }

  lemma FirstAfter(msgs: seq<Turn>, i: nat)
    requires i < |msgs|
    ensures Opening(msgs[i]) ==> FirstOpening(msgs[i..]) == Some(msgs[i])
    ensures !Opening(msgs[i]) ==> FirstOpening(msgs[i..]) == FirstOpening(msgs[i + 1..])
    ensures msgs[i].role == USER ==> FirstUser(msgs[i..]) == Some(msgs[i].content)
    ensures msgs[i].role != USER ==> FirstUser(msgs[i..]) == FirstUser(msgs[i + 1..])
  {
    assert msgs[i..][1..] == msgs[i + 1..];
  }

  /** Feeds the first system or user message to the hasher. */
  method WriteOpening(h: Bytes, msgs: seq<Turn>) returns (out: Bytes)
    ensures out == h + OpeningPart(FirstOpening(msgs))
  {
    out := h;
    assert msgs[0..] == msgs;
    for i := 0 to |msgs|
      invariant out == h && FirstOpening(msgs) == FirstOpening(msgs[i..])
    {
      var m := msgs[i];
      FirstAfter(msgs, i);
      if m.role == SYSTEM || m.role == USER {
        out := WriteTwo(h, m.role, [0]);
        out := out + m.content;
        ConcatAssociates(h, m.role + [0], m.content);
        return;
      }
    }
    assert out + [] == out;
  }

  /** Two writes to the hasher. */
  method WriteTwo(h: Bytes, a: Bytes, b: Bytes) returns (out: Bytes)
    ensures out == h + (a + b)
  {
    out := h + a;
    out := out + b;
    ConcatAssociates(h, a, b);
  }

  /** Feeds the first user message to the hasher. */
  method WriteUser(h: Bytes, msgs: seq<Turn>) returns (out: Bytes)
    ensures out == h + UserPart(FirstUser(msgs))
  {
    out := h;
    assert msgs[0..] == msgs;
    for i := 0 to |msgs|
      invariant out == h && FirstUser(msgs) == FirstUser(msgs[i..])
    {
      var m := msgs[i];
      FirstAfter(msgs, i);
      if m.role == USER {
        out := WriteTwo(h, [1], m.content);
        return;
      }
    }
    assert out + [] == out;
  }

  /** Feeds model and system field to the hasher. */
  method WriteStart(chat: Chat) returns (h: Bytes)
    ensures h == chat.model + [0] + SystemPart(chat.system)
  {
    h := chat.model;
    h := h + [0];
    if |chat.system| > 0 {
      h := h + SYSTEM;
      h := h + [0];
      h := h + chat.system;
      h := h + [0];
    }
  }

  lemma PartsInOrder(a: Bytes, b: Bytes, c: Bytes, d: Bytes)
    ensures a + b + c + d == a + (b + c + d)
  {
  }

  /** Everything that is hashed, in the order it is fed. */
  method WriteAll(chat: Chat) returns (h: Bytes)
    ensures h == PreImage(chat)
  {
    h := WriteStart(chat);
    h := WriteOpening(h, chat.messages);
    h := WriteUser(h, chat.messages);
    PartsInOrder(chat.model + [0], SystemPart(chat.system), OpeningPart(FirstOpening(chat.messages)),
                 UserPart(FirstUser(chat.messages)));
  }

  method IDForRequest(digest: Digest, request: Option<Chat>) returns (id: Bytes)
    requires Sized(digest)
    ensures id == IdOf(digest, request)
  {
    if request.None? {
      return ANON;
    }
    var h := WriteAll(request.value);
    return Hex(digest(h))[..16];
  }

  // ----- what is hashed -----

  /** The opening that is hashed is the first message from the system or the user. */
  lemma {:induction false} FirstOpeningIs(msgs: seq<Turn>, i: nat)
    requires i < |msgs| && (msgs[i].role == Ascii("system") || msgs[i].role == Ascii("user"))
    requires forall k :: 0 <= k < i ==> msgs[k].role != Ascii("system") && msgs[k].role != Ascii("user")
    ensures FirstOpening(msgs) == Some(msgs[i])
  {
    if i > 0 {
      FirstOpeningIs(msgs[1..], i - 1);
    }
  }

  lemma {:induction false} FirstUserIs(msgs: seq<Turn>, u: nat)
    requires u < |msgs| && msgs[u].role == Ascii("user")
    requires forall k :: 0 <= k < u ==> msgs[k].role != Ascii("user")
    ensures FirstUser(msgs) == Some(msgs[u].content)
  {
    if u > 0 {
      FirstUserIs(msgs[1..], u - 1);
    }
  }

  lemma {:induction false} NoneIs(msgs: seq<Turn>)
    ensures (forall k :: 0 <= k < |msgs| ==> msgs[k].role != Ascii("user")) ==> FirstUser(msgs) == None
    ensures (forall k :: 0 <= k < |msgs| ==> msgs[k].role != Ascii("user") && msgs[k].role != Ascii("system"))
              ==> FirstOpening(msgs) == None
  {
    if msgs != [] {
      NoneIs(msgs[1..]);
      assert forall k :: 0 <= k < |msgs| - 1 ==> msgs[1..][k] == msgs[k + 1];
    }
  }

  lemma SystemFirst(system: Bytes, x: Bytes, y: Bytes)
    ensures system == [] ==> SystemPart(system) + x + y == x + y
    ensures system != [] ==> SystemPart(system) + x + y == Ascii("system") + [0] + system + [0] + (x + y)
    ensures x + [] == x && SystemPart(system) + [] + [] == SystemPart(system)
    ensures system != [] ==> SystemPart(system) == Ascii("system") + [0] + system + [0]
  {
    assert [] + x == x;
    ConcatAssociates(SystemPart(system), x, y);
    ConcatAssociates(SYSTEM + [0], system, [0]);
  }

  /** Hashed are the model, the system field, the first system or user message with its role,
      and the first user message, separated by bytes 0 and 1. */
  lemma HashedBytes(chat: Chat, i: nat, u: nat)
    requires i < |chat.messages| && u < |chat.messages|
    requires chat.messages[i].role == Ascii("system") || chat.messages[i].role == Ascii("user")
    requires forall k :: 0 <= k < i ==>
               chat.messages[k].role != Ascii("system") && chat.messages[k].role != Ascii("user")
    requires chat.messages[u].role == Ascii("user")
    requires forall k :: 0 <= k < u ==> chat.messages[k].role != Ascii("user")
    ensures var rest := chat.messages[i].role + [0] + chat.messages[i].content + ([1] + chat.messages[u].content);
            && (chat.system == [] ==> PreImage(chat) == chat.model + [0] + rest)
            && (chat.system != [] ==>
                  PreImage(chat) == chat.model + [0] + (Ascii("system") + [0] + chat.system + [0] + rest))
  {
    SystemFirst(chat.system, OpeningPart(Some(chat.messages[i])), UserPart(Some(chat.messages[u].content)));
    FirstOpeningIs(chat.messages, i);
    FirstUserIs(chat.messages, u);
  }

  /** Without a user message the last part is missing, without a system message either the
      first message is too. */
  lemma HashedWithoutUser(chat: Chat)
    requires forall k :: 0 <= k < |chat.messages| ==> chat.messages[k].role != Ascii("user")
    ensures forall i :: 0 <= i < |chat.messages| && chat.messages[i].role == Ascii("system")
                        && (forall k :: 0 <= k < i ==> chat.messages[k].role != Ascii("system")) ==>
              var rest := chat.messages[i].role + [0] + chat.messages[i].content;
              && (chat.system == [] ==> PreImage(chat) == chat.model + [0] + rest)
              && (chat.system != [] ==>
                    PreImage(chat) == chat.model + [0] + (Ascii("system") + [0] + chat.system + [0] + rest))
    ensures (forall k :: 0 <= k < |chat.messages| ==> chat.messages[k].role != Ascii("system")) ==>
              && (chat.system == [] ==> PreImage(chat) == chat.model + [0])
              && (chat.system != [] ==>
                    PreImage(chat) == chat.model + [0] + (Ascii("system") + [0] + chat.system + [0]))
  {
    SystemFirst(chat.system, OpeningPart(FirstOpening(chat.messages)), []);
    NoneIs(chat.messages);
    forall i | 0 <= i < |chat.messages| && chat.messages[i].role == Ascii("system")
               && (forall k :: 0 <= k < i ==> chat.messages[k].role != Ascii("system"))
      ensures FirstOpening(chat.messages) == Some(chat.messages[i])
    {
      FirstOpeningIs(chat.messages, i);
    }
  }

  // ----- affinity -----

  lemma {:induction false} FirstsOfPrefix(msgs: seq<Turn>, more: seq<Turn>)
    ensures FirstOpening(msgs + more) == if FirstOpening(msgs).Some? then FirstOpening(msgs) else FirstOpening(more)
    ensures FirstUser(msgs + more) == if FirstUser(msgs).Some? then FirstUser(msgs) else FirstUser(more)
    ensures FirstUser(msgs).Some? ==> FirstOpening(msgs).Some?
  {
    if msgs == [] {
      assert msgs + more == more;
    } else {
      FirstsOfPrefix(msgs[1..], more);
      SlicesOfConcat(msgs, more, 1);
    }
  }

  function Append(chat: Chat, more: seq<Turn>): Chat {
    chat.(messages := chat.messages + more)
  }

  /** Appending messages never changes what is hashed in a conversation that has a user
      message; without one, some message does. */
  lemma Affinity(chat: Chat)
    ensures FirstUser(chat.messages).Some? <==> forall more :: PreImage(Append(chat, more)) == PreImage(chat)
  {
    if FirstUser(chat.messages).Some? {
      forall more ensures PreImage(Append(chat, more)) == PreImage(chat) {
        FirstsOfPrefix(chat.messages, more);
      }
    } else {
      var more := [Turn(USER, [])];
      FirstsOfPrefix(chat.messages, more);
      assert |PreImage(Append(chat, more))| > |PreImage(chat)|;
    }
  }

  /** So with a user message the ID is fixed, whatever the hash function. */
  lemma IdStays(digest: Digest, chat: Chat, more: seq<Turn>)
    requires Sized(digest) && FirstUser(chat.messages).Some?
    ensures IdOf(digest, Some(Append(chat, more))) == IdOf(digest, Some(chat))
  {
    Affinity(chat);
  }

  // ----- unique decoding -----

  /** The first separator splits a byte string in one way only. */
  lemma SplitAtFirst(a: Bytes, x: Bytes, b: Bytes, y: Bytes, sep: byte)
    requires sep !in a && sep !in b && a + [sep] + x == b + [sep] + y
    ensures a == b && x == y
  {
    var s := a + [sep] + x;
    assert s[|a|] == sep && s[|b|] == sep;
    assert forall i :: 0 <= i < |a| ==> s[i] in a;
    assert forall i :: 0 <= i < |b| ==> s[i] in b;
    assert a == s[..|a|] && b == s[..|b|] && x == s[|a| + 1..] && y == s[|b| + 1..];
  }

  /** A model without NUL bytes; raw JSON values without control bytes 0 and 1. */
  predicate Clear(chat: Chat) {
    && 0 !in chat.model
    && 0 !in chat.system && 1 !in chat.system
    && forall m :: m in chat.messages ==> 0 !in m.content && 1 !in m.content
  }

  lemma RoleClear(m: Turn)
    requires Opening(m)
    ensures 0 !in m.role && 1 !in m.role
  {
  }

  lemma UserPartUnique(p: Bytes, u: Option<Bytes>, q: Bytes, v: Option<Bytes>)
    requires 1 !in p && 1 !in q && (u.Some? ==> 1 !in u.value) && (v.Some? ==> 1 !in v.value)
    requires p + UserPart(u) == q + UserPart(v)
    ensures p == q && u == v
  {
    assert p + [] == p && q + [] == q;
    if u.Some? {
      assert p + UserPart(u) == p + [1] + u.value && (p + UserPart(u))[|p|] == 1;
    }
    if v.Some? {
      assert q + UserPart(v) == q + [1] + v.value && (q + UserPart(v))[|q|] == 1;
    }
    if u.Some? && v.Some? {
      SplitAtFirst(p, u.value, q, v.value, 1);
    }
  }

  lemma OpeningPartUnique(f: Option<Turn>, g: Option<Turn>)
    requires f.Some? ==> Opening(f.value)
    requires g.Some? ==> Opening(g.value)
    requires OpeningPart(f) == OpeningPart(g)
    ensures f == g
  {
    if f.Some? && g.Some? {
      RoleClear(f.value);
      RoleClear(g.value);
      SplitAtFirst(f.value.role, f.value.content, g.value.role, g.value.content, 0);
    }
  }

  lemma OneNul(m: Turn)
    requires Opening(m) && 0 !in m.content
    ensures forall i :: 0 <= i < |OpeningPart(Some(m))| && OpeningPart(Some(m))[i] == 0 ==> i == |m.role|
  {
    RoleClear(m);
    var x := OpeningPart(Some(m));
    assert forall i :: 0 <= i < |m.role| ==> x[i] in m.role;
    assert forall i :: |m.role| < i < |x| ==> x[i] == m.content[i - |m.role| - 1] && x[i] in m.content;
  }

  lemma SystemIsNotOpening(s: Bytes, f: Option<Turn>, g: Option<Turn>)
    requires s != []
    requires g.Some? ==> Opening(g.value) && 0 !in g.value.content
    ensures SystemPart(s) + OpeningPart(f) != OpeningPart(g)
  {
    var x := SystemPart(s) + OpeningPart(f);
    assert x[|SYSTEM|] == 0 && x[|SYSTEM| + 1 + |s|] == 0;
    if g.Some? {
      OneNul(g.value);
    }
  }

  lemma TwoSystems(s: Bytes, x: Bytes, t: Bytes, y: Bytes)
    requires s != [] && t != [] && 0 !in s && 0 !in t
    requires SystemPart(s) + x == SystemPart(t) + y
    ensures s == t && x == y
  {
    ConcatAssociates(SYSTEM + [0], s + [0], x);
    ConcatAssociates(SYSTEM + [0], t + [0], y);
    RoleClear(Turn(SYSTEM, []));
    SplitAtFirst(SYSTEM, s + [0] + x, SYSTEM, t + [0] + y, 0);
    SplitAtFirst(s, x, t, y, 0);
  }

  lemma SystemPartUnique(s: Bytes, f: Option<Turn>, t: Bytes, g: Option<Turn>)
    requires 0 !in s && 0 !in t
    requires f.Some? ==> Opening(f.value) && 0 !in f.value.content
    requires g.Some? ==> Opening(g.value) && 0 !in g.value.content
    requires SystemPart(s) + OpeningPart(f) == SystemPart(t) + OpeningPart(g)
    ensures s == t && f == g
  {
    if s != [] && t != [] {
      TwoSystems(s, OpeningPart(f), t, OpeningPart(g));
    } else if s != [] {
      assert [] + OpeningPart(g) == OpeningPart(g);
      SystemIsNotOpening(s, f, g);
    } else if t != [] {
      assert [] + OpeningPart(f) == OpeningPart(f);
      SystemIsNotOpening(t, g, f);
    } else {
      assert [] + OpeningPart(g) == OpeningPart(g) && [] + OpeningPart(f) == OpeningPart(f);
    }
    OpeningPartUnique(f, g);
  }

  lemma OpeningsClear(chat: Chat)
    requires Clear(chat)
    ensures 1 !in SystemPart(chat.system) + OpeningPart(FirstOpening(chat.messages))
  {
    RoleClear(Turn(SYSTEM, []));
    if FirstOpening(chat.messages).Some? {
      RoleClear(FirstOpening(chat.messages).value);
    }
  }

  /** Two conversations hash the same bytes exactly when they agree on the model, the system
      field, the first system or user message and the first user message. */
  lemma SameIdMeansSameStart(c: Chat, d: Chat)
    requires Clear(c) && Clear(d)
    ensures PreImage(c) == PreImage(d) <==>
            c.model == d.model && c.system == d.system
            && FirstOpening(c.messages) == FirstOpening(d.messages) && FirstUser(c.messages) == FirstUser(d.messages)
  {
    if PreImage(c) == PreImage(d) {
      var p := SystemPart(c.system) + OpeningPart(FirstOpening(c.messages));
      var q := SystemPart(d.system) + OpeningPart(FirstOpening(d.messages));
      var u, v := FirstUser(c.messages), FirstUser(d.messages);
      SplitAtFirst(c.model, p + UserPart(u), d.model, q + UserPart(v), 0);
      OpeningsClear(c);
      OpeningsClear(d);
      UserPartUnique(p, u, q, v);
      SystemPartUnique(c.system, FirstOpening(c.messages), d.system, FirstOpening(d.messages));
    }
  }

  lemma HexDigits(x: byte, y: byte)
    ensures HexHigh(x) == HexHigh(y) && HexLow(x) == HexLow(y) ==> x == y
  {
    assert x == x / 16 * 16 + x % 16 && y == y / 16 * 16 + y % 16;
  }

  lemma HexLast(b: Bytes)
    requires b != []
    ensures var h := Hex(b);
            && h[..|h| - 2] == Hex(b[..|b| - 1])
            && h[|h| - 2] == HexHigh(b[|b| - 1]) && h[|h| - 1] == HexLow(b[|b| - 1])
  {
  }

  lemma {:induction false} HexInjective(x: Bytes, y: Bytes)
    requires Hex(x) == Hex(y)
    ensures x == y
  {
    if x != [] {
      HexLast(x);
      HexLast(y);
      HexInjective(x[..|x| - 1], y[..|y| - 1]);
      HexDigits(x[|x| - 1], y[|y| - 1]);
      assert x == x[..|x| - 1] + [x[|x| - 1]] && y == y[..|y| - 1] + [y[|y| - 1]];
    }
  }

  lemma {:induction false} HexPrefix(b: Bytes, n: nat)
    requires n <= |b|
    ensures Hex(b)[..2 * n] == Hex(b[..n])
  {
    if n < |b| {
      HexLast(b);
      HexPrefix(b[..|b| - 1], n);
      assert b[..|b| - 1][..n] == b[..n];
      assert Hex(b)[..2 * n] == Hex(b)[..|Hex(b)| - 2][..2 * n];
    } else {
      assert b[..n] == b;
    }
  }

  /** Two IDs are equal exactly when the first eight bytes of the digests are, and none is "anon". */
  lemma SameId(digest: Digest, c: Chat, d: Chat)
    requires Sized(digest)
    ensures IdOf(digest, Some(c)) == IdOf(digest, Some(d)) <==>
            digest(PreImage(c))[..8] == digest(PreImage(d))[..8]
    ensures IdOf(digest, Some(c)) != IdOf(digest, None)
  {
    HexPrefix(digest(PreImage(c)), 8);
    HexPrefix(digest(PreImage(d)), 8);
    if IdOf(digest, Some(c)) == IdOf(digest, Some(d)) {
      HexInjective(digest(PreImage(c))[..8], digest(PreImage(d))[..8]);
    }
  }

  /** Conversations that begin with different system messages hash different bytes. */
  lemma SystemSeparates(c: Chat, d: Chat)
    requires Clear(c) && Clear(d) && c.messages != [] && d.messages != []
    requires c.messages[0].role == d.messages[0].role == Ascii("system")
    requires c.messages[0].content != d.messages[0].content
    ensures PreImage(c) != PreImage(d)
  {
    FirstOpeningIs(c.messages, 0);
    FirstOpeningIs(d.messages, 0);
    SameIdMeansSameStart(c, d);
  }

  /** Each byte is written as its two digits, high one first. */
  lemma {:induction false} HexAt(b: Bytes, i: nat)
    requires i < |b|
    ensures Hex(b)[2 * i] == Ascii("0123456789abcdef")[b[i] / 16]
    ensures Hex(b)[2 * i + 1] == Ascii("0123456789abcdef")[b[i] % 16]
  {
    HexLast(b);
    if i < |b| - 1 {
      HexAt(b[..|b| - 1], i);
      assert Hex(b)[2 * i] == Hex(b)[..|Hex(b)| - 2][2 * i];
      assert Hex(b)[2 * i + 1] == Hex(b)[..|Hex(b)| - 2][2 * i + 1];
    } else {
      JsonString.HexDigitIs(b[i] / 16);
      JsonString.HexDigitIs(b[i] % 16);
    }
  }

  /** The ID of a readable request, and of any other. */
  lemma IdIs(digest: Digest, c: Chat, i: nat)
    requires Sized(digest) && i < 8
    ensures IdOf(digest, Some(c))[2 * i] == Ascii("0123456789abcdef")[digest(PreImage(c))[i] / 16]
    ensures IdOf(digest, Some(c))[2 * i + 1] == Ascii("0123456789abcdef")[digest(PreImage(c))[i] % 16]
    ensures IdOf(digest, None) == Ascii("anon")
  {
    HexAt(digest(PreImage(c)), i);
  }
}
