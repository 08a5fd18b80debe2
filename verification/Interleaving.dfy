// Any number of request handlers on one session (internal/pipeline/pipeline.go:58-97,
// internal/pipeline/prune_tools.go:39-80). A handler takes one action for each
// method of the session it calls; actions of different handlers interleave freely.
module Interleaving {
  import opened ByteStrings
  import opened Fingerprint
  import opened Sessions
  import opened Messages
  import opened Prune
  import Pipeline

  datatype Request = Request(tools: seq<Bytes>, calls: seq<Bytes>, forced: set<Bytes>, fingerprints: seq<uint64>)

  datatype Config = Config(enabled: bool, protectedTools: set<Bytes>)

  /** What a handler does next. */
  datatype PC =
    | Observing
    | ReadingTurns
    | ReadingCacheHit
    | Checking(next: nat)
    | ReadingFingerprints
    | RecordingFingerprints
    | RecordingCacheHit
    | Done

  /** A tool dropped after the session had observed `seen` histories. */
  datatype Dropped = Dropped(name: Bytes, seen: nat)

  /** A handler with the tools it has kept and dropped so far; a closed gate keeps them all. */
  datatype Handler = Handler(req: Request, pc: PC, observation: nat, kept: seq<Bytes>, dropped: seq<Dropped>)

  /** The shared session, the histories it has observed so far, and all handlers. */
  datatype World = World(session: SessionState, log: seq<seq<Bytes>>, handlers: seq<Handler>)

  datatype Action = Arrive(req: Request) | Advance(h: nat, hit: bool)

  const INITIAL: World := World(FRESH, [], [])

  function NamesFor(cfg: Config, st: SessionState, req: Request): Names {
    Names(cfg.protectedTools, req.forced + SetOf(req.calls), st.toolsUsed)
  }

  /** A gate is closed: the handler goes on with the tools it was given. */
  function KeepsAll(h: Handler): Handler {
    h.(pc := ReadingFingerprints, kept := h.req.tools)
  }

  /** One step of handler h; hit is what the upstream's response will show. */
  function StepHandler(cfg: Config, w: World, h: Handler, hit: bool): (Handler, SessionState, seq<seq<Bytes>>) {
    var st := w.session;
    match h.pc
    case Observing =>
      var observed := h.(observation := |w.log|);
      (if cfg.enabled && h.req.tools != [] then observed.(pc := ReadingTurns) else KeepsAll(observed),
       Observe(st, h.req.calls), w.log + [h.req.calls])
    case ReadingTurns =>
      (if st.turns < MIN_OBSERVED_TURNS then KeepsAll(h) else h.(pc := ReadingCacheHit), st, w.log)
    case ReadingCacheHit =>
      (if st.lastCacheHit then KeepsAll(h) else h.(pc := Checking(0)), st, w.log)
    case Checking(k) =>
      if k >= |h.req.tools| then (h.(pc := ReadingFingerprints), st, w.log)
      else if Keeps(h.req.tools[k], NamesFor(cfg, st, h.req)) then
        (h.(pc := Checking(k + 1), kept := h.kept + [h.req.tools[k]]), st, w.log)
      else
        (h.(pc := Checking(k + 1), dropped := h.dropped + [Dropped(h.req.tools[k], |w.log|)]), st, w.log)
    case ReadingFingerprints => (h.(pc := RecordingFingerprints), st, w.log)
    case RecordingFingerprints =>
      (h.(pc := RecordingCacheHit), st.(lastFingerprints := Some(h.req.fingerprints)), w.log)
    case RecordingCacheHit => (h.(pc := Done), st.(lastCacheHit := hit), w.log)
    case Done => (h, st, w.log)
  }

  function Do(cfg: Config, w: World, a: Action): World {
    match a
    case Arrive(req) => w.(handlers := w.handlers + [Handler(req, Observing, 0, [], [])])
    case Advance(i, hit) =>
      if i < |w.handlers| then
        var (h, st, log) := StepHandler(cfg, w, w.handlers[i], hit);
        World(st, log, w.handlers[i := h])
      else w
  }

  function RunFrom(cfg: Config, w: World, actions: seq<Action>): World {
    if actions == [] then w
    else Do(cfg, RunFrom(cfg, w, actions[..|actions| - 1]), actions[|actions| - 1])
  }

  function Run(cfg: Config, actions: seq<Action>): World {
    RunFrom(cfg, INITIAL, actions)
  }

  lemma {:induction false} RunSplits(cfg: Config, w: World, x: seq<Action>, y: seq<Action>)
    ensures RunFrom(cfg, w, x + y) == RunFrom(cfg, RunFrom(cfg, w, x), y)
  {
    if y == [] {
      assert x + y == x;
    } else {
      var n := |y| - 1;
      RunSplits(cfg, w, x, y[..n]);
      assert (x + y)[..|x| + n] == x + y[..n];
    }
  }

  // ----- safety -----

  /** How often a name occurs in the observed histories. */
  function Occurrences(log: seq<seq<Bytes>>, name: Bytes): nat {
    if log == [] then 0 else Occurrences(log[..|log| - 1], name) + multiset(log[|log| - 1])[name]
  }

  /** The name was in none of the histories observed when it was dropped, at least
      three of them including the handler's own, and nothing else protected it. */
  ghost predicate SafeDrop(cfg: Config, log: seq<seq<Bytes>>, h: Handler, d: Dropped) {
    && 3 <= d.seen <= |log|
    && h.observation < d.seen
    && (forall k :: 0 <= k < d.seen ==> d.name !in log[k])
    && d.name in h.req.tools
    && d.name !in cfg.protectedTools && d.name !in h.req.forced && d.name !in h.req.calls
  }

  ghost predicate HandlerSafe(cfg: Config, log: seq<seq<Bytes>>, h: Handler) {
    && (!h.pc.Observing? ==> h.observation < |log| && log[h.observation] == h.req.calls)
    && (h.pc.Observing? || h.pc.ReadingTurns? || h.pc.ReadingCacheHit? ==> h.kept == [] && h.dropped == [])
    && (h.pc.ReadingCacheHit? || h.pc.Checking? ==> |log| >= MIN_OBSERVED_TURNS)
    && (h.pc.Checking? ==> |h.kept| + |h.dropped| == h.pc.next <= |h.req.tools|)
    && (forall d :: d in h.dropped ==> SafeDrop(cfg, log, h, d))
  }

  ghost predicate Safe(cfg: Config, w: World) {
    && w.session.turns == |w.log|
    && (forall name :: UsedCount(w.session.toolsUsed, name) == Occurrences(w.log, name))
    && (forall h :: h in w.handlers ==> HandlerSafe(cfg, w.log, h))
  }

  lemma {:induction false} NoOccurrences(log: seq<seq<Bytes>>, name: Bytes)
    ensures Occurrences(log, name) == 0 <==> forall k :: 0 <= k < |log| ==> name !in log[k]
  {
    if log != [] {
      NoOccurrences(log[..|log| - 1], name);
      assert name in log[|log| - 1] <==> multiset(log[|log| - 1])[name] > 0;
    }
  }

  lemma LogGrows(cfg: Config, log: seq<seq<Bytes>>, more: seq<Bytes>, h: Handler)
    requires HandlerSafe(cfg, log, h)
    ensures HandlerSafe(cfg, log + [more], h)
  {
    var now := log + [more];
    assert forall k :: 0 <= k < |log| ==> now[k] == log[k];
    forall d | d in h.dropped ensures SafeDrop(cfg, now, h, d) {
      assert SafeDrop(cfg, log, h, d);
    }
  }

  lemma ObserveKeepsCounts(st: SessionState, log: seq<seq<Bytes>>, calls: seq<Bytes>)
    requires forall name :: UsedCount(st.toolsUsed, name) == Occurrences(log, name)
    ensures forall name :: UsedCount(Observe(st, calls).toolsUsed, name) == Occurrences(log + [calls], name)
  {
    forall name ensures UsedCount(Observe(st, calls).toolsUsed, name) == Occurrences(log + [calls], name) {
      CountNamesAdds(st.toolsUsed, calls, name);
      assert (log + [calls])[..|log|] == log;
    }
  }

  /** The handler that moves stays safe. */
  lemma MoverSafe(cfg: Config, w: World, i: nat, hit: bool)
    requires Safe(cfg, w) && i < |w.handlers|
    ensures var (h, st, log) := StepHandler(cfg, w, w.handlers[i], hit); HandlerSafe(cfg, log, h)
  {
    var h := w.handlers[i];
    assert h in w.handlers;
    if h.pc.Checking? && h.pc.next < |h.req.tools| && !Keeps(h.req.tools[h.pc.next], NamesFor(cfg, w.session, h.req)) {
      var d := Dropped(h.req.tools[h.pc.next], |w.log|);
      NoOccurrences(w.log, d.name);
      assert d.name !in h.req.forced + SetOf(h.req.calls);
      var now := StepHandler(cfg, w, h, hit).0;
      forall e | e in now.dropped ensures SafeDrop(cfg, w.log, now, e) {
        assert e != d ==> SafeDrop(cfg, w.log, h, e);
      }
    } else {
      var now := StepHandler(cfg, w, h, hit).0;
      assert now.dropped == h.dropped;
      forall e | e in now.dropped ensures h.dropped != [] && SafeDrop(cfg, w.log, h, e) {
      }
    }
  }

  lemma StepSafe(cfg: Config, w: World, a: Action)
    requires Safe(cfg, w)
    ensures Safe(cfg, Do(cfg, w, a))
  {
    var now := Do(cfg, w, a);
    if a.Advance? && a.h < |w.handlers| {
      var h := w.handlers[a.h];
      MoverSafe(cfg, w, a.h, a.hit);
      if h.pc.Observing? {
        ObserveKeepsCounts(w.session, w.log, h.req.calls);
        forall g | g in w.handlers ensures HandlerSafe(cfg, now.log, g) {
          LogGrows(cfg, w.log, h.req.calls, g);
        }
      }
      forall g | g in now.handlers ensures HandlerSafe(cfg, now.log, g) {
        var k :| 0 <= k < |now.handlers| && now.handlers[k] == g;
        assert k != a.h ==> g == w.handlers[k] && g in w.handlers;
      }
    }
  }

  /** Whatever the interleaving, every drop is safe and the session's counters are exact. */
  lemma {:induction false} EveryRunIsSafe(cfg: Config, actions: seq<Action>)
    ensures Safe(cfg, Run(cfg, actions))
  {
    if actions != [] {
      EveryRunIsSafe(cfg, actions[..|actions| - 1]);
      StepSafe(cfg, Run(cfg, actions[..|actions| - 1]), actions[|actions| - 1]);
    }
  }

  /** In full: in any run, the counters are those of the observed histories, and a tool that
      was dropped when d.seen histories had been observed was in none of them; there were at
      least three, one of them the handler's own, and nothing else kept the tool. */
  lemma EveryDropIsSafe(cfg: Config, actions: seq<Action>, i: nat, d: Dropped, name: Bytes)
    requires i < |Run(cfg, actions).handlers| && d in Run(cfg, actions).handlers[i].dropped
    ensures var w := Run(cfg, actions);
            var h := w.handlers[i];
            && w.session.turns == |w.log|
            && (if name in w.session.toolsUsed then w.session.toolsUsed[name] else 0) == multiset(Flat(w.log))[name]
            && 3 <= d.seen <= |w.log| && (forall k :: 0 <= k < d.seen ==> d.name !in w.log[k])
            && h.observation < d.seen && w.log[h.observation] == h.req.calls
            && d.name in h.req.tools && d.name !in h.req.calls
            && d.name !in h.req.forced && d.name !in cfg.protectedTools
  {
    EveryRunIsSafe(cfg, actions);
    var w := Run(cfg, actions);
    assert w.handlers[i] in w.handlers;
    assert SafeDrop(cfg, w.log, w.handlers[i], d);
    OccurrencesAre(w.log, name);
    assert UsedCount(w.session.toolsUsed, name) == Occurrences(w.log, name);
    assert !w.handlers[i].pc.Observing?;
  }

  lemma {:induction false} OccurrencesAre(log: seq<seq<Bytes>>, name: Bytes)
    ensures Occurrences(log, name) == multiset(Flat(log))[name]
  {
    if log != [] {
      OccurrencesAre(log[..|log| - 1], name);
    }
  }

  // ----- a handler left alone does what the sequential pipeline does -----

  /** k undisturbed steps of handler i. */
  function Alone(cfg: Config, w: World, i: nat, k: nat): World {
    RunFrom(cfg, w, Steps(i, k))
  }

  function Steps(i: nat, k: nat): seq<Action> {
    seq(k, _ => Advance(i, false))
  }

  lemma AloneNext(cfg: Config, w: World, i: nat, k: nat)
    ensures Alone(cfg, w, i, k + 1) == Do(cfg, Alone(cfg, w, i, k), Advance(i, false))
    ensures Alone(cfg, w, i, 0) == w
  {
    assert Steps(i, k + 1)[..k] == Steps(i, k);
  }

  lemma AloneAgain(cfg: Config, w: World, i: nat, j: nat, k: nat)
    ensures Alone(cfg, Alone(cfg, w, i, j), i, k) == Alone(cfg, w, i, j + k)
  {
    RunSplits(cfg, w, Steps(i, j), Steps(i, k));
    assert Steps(i, j) + Steps(i, k) == Steps(i, j + k);
  }

  function DropNames(ds: seq<Dropped>): seq<Bytes> {
    seq(|ds|, j requires 0 <= j < |ds| => ds[j].name)
  }

  /** k undisturbed checks keep and drop what the sequential filter does. */
  lemma {:induction false} AloneRefinesPass(cfg: Config, w: World, i: nat, k: nat, tools: seq<Tool>)
    requires i < |w.handlers| && NamesAt(tools) == w.handlers[i].req.tools && k <= |tools|
    requires w.handlers[i].pc == Checking(0) && w.handlers[i].kept == [] && w.handlers[i].dropped == []
    ensures var v := Alone(cfg, w, i, k);
            var ns := NamesFor(cfg, w.session, w.handlers[i].req);
            && v.session == w.session && v.log == w.log && |v.handlers| == |w.handlers|
            && v.handlers[i].req == w.handlers[i].req && v.handlers[i].pc == Checking(k)
            && v.handlers[i].kept == NamesAt(Kept(tools, k, ns))
            && DropNames(v.handlers[i].dropped) == DroppedNames(tools, k, ns)
  {
    var ns := NamesFor(cfg, w.session, w.handlers[i].req);
    if k > 0 {
      AloneRefinesPass(cfg, w, i, k - 1, tools);
      AloneNext(cfg, w, i, k - 1);
      KeptNext(tools, k - 1, ns);
      assert NamesAt(tools)[k - 1] == tools[k - 1].name;
    }
  }

  /** Handler i of w holds this request and has not started. */
  ghost predicate Starts(w: World, i: nat, tools: seq<Tool>, msgs: seq<Message>, forced: set<Bytes>) {
    && i < |w.handlers|
    && w.handlers[i] == Handler(RequestOf(tools, msgs, forced), Observing, 0, [], [])
  }

  /** What the handler of a request works with: tool names, called names, forced names,
      and the fingerprints of the messages it forwards. */
  function RequestOf(tools: seq<Tool>, msgs: seq<Message>, forced: set<Bytes>): Request {
    Request(NamesAt(tools), CallNames(msgs), forced, OfMessages(Pipeline.Forward(msgs)))
  }

  /** Handler i of v is past pruning, having kept and dropped what the pruning pass does on st. */
  ghost predicate PrunedLike(cfg: Config, v: World, i: nat, tools: seq<Tool>, msgs: seq<Message>, forced: set<Bytes>,
                             st: SessionState)
  {
    && i < |v.handlers| && v.session == st && v.handlers[i].req == RequestOf(tools, msgs, forced)
    && v.handlers[i].pc == ReadingFingerprints
    && exists kept, dropped ::
         && Pipeline.Pruned(cfg.enabled, cfg.protectedTools, tools, msgs, forced, st, kept, dropped)
         && v.handlers[i].kept == NamesAt(kept) && DropNames(v.handlers[i].dropped) == dropped
  }

  /** With a gate closed every tool is kept. */
  lemma AloneClosed(cfg: Config, w: World, i: nat, tools: seq<Tool>, msgs: seq<Message>, forced: set<Bytes>)
    returns (n: nat)
    requires Starts(w, i, tools, msgs, forced)
    requires !cfg.enabled || Gated(|tools|, Observe(w.session, CallNames(msgs)))
    ensures PrunedLike(cfg, Alone(cfg, w, i, n), i, tools, msgs, forced, Observe(w.session, CallNames(msgs)))
  {
    var st := Observe(w.session, CallNames(msgs));
    AloneNext(cfg, w, i, 0);
    AloneNext(cfg, w, i, 1);
    AloneNext(cfg, w, i, 2);
    n := if !cfg.enabled || tools == [] then 1 else if st.turns < MIN_OBSERVED_TURNS then 2 else 3;
    assert DropNames([]) == [];
    assert Pipeline.Pruned(cfg.enabled, cfg.protectedTools, tools, msgs, forced, st, tools, []);
  }

  /** Through both gates. */
  lemma AloneOpen(cfg: Config, w: World, i: nat, tools: seq<Tool>, msgs: seq<Message>, forced: set<Bytes>)
    requires Starts(w, i, tools, msgs, forced)
    requires cfg.enabled && !Gated(|tools|, Observe(w.session, CallNames(msgs)))
    ensures var v := Alone(cfg, w, i, 3);
            && v.session == Observe(w.session, CallNames(msgs)) && |v.handlers| == |w.handlers|
            && v.handlers[i] == Handler(RequestOf(tools, msgs, forced), Checking(0), |w.log|, [], [])
  {
    AloneNext(cfg, w, i, 0);
    AloneNext(cfg, w, i, 1);
    AloneNext(cfg, w, i, 2);
  }

  /** Through both gates and all checks. */
  lemma AlonePrunes(cfg: Config, w: World, i: nat, tools: seq<Tool>, msgs: seq<Message>, forced: set<Bytes>)
    returns (n: nat)
    requires Starts(w, i, tools, msgs, forced)
    ensures PrunedLike(cfg, Alone(cfg, w, i, n), i, tools, msgs, forced, Observe(w.session, CallNames(msgs)))
  {
    var st := Observe(w.session, CallNames(msgs));
    if !cfg.enabled || Gated(|tools|, st) {
      n := AloneClosed(cfg, w, i, tools, msgs, forced);
    } else {
      AloneOpen(cfg, w, i, tools, msgs, forced);
      AloneRefinesPass(cfg, Alone(cfg, w, i, 3), i, |tools|, tools);
      AloneAgain(cfg, w, i, 3, |tools|);
      n := 3 + |tools| + 1;
      AloneNext(cfg, w, i, 3 + |tools|);
      var ns := NamesFor(cfg, st, RequestOf(tools, msgs, forced));
      var kept, dropped := Kept(tools, |tools|, ns), DroppedNames(tools, |tools|, ns);
      assert Pipeline.Pruned(cfg.enabled, cfg.protectedTools, tools, msgs, forced, st, kept, dropped);
    }
  }

  /** A handler that runs alone from its first to its last step on the session before the
      response leaves the session state, and the kept and dropped tools, of the sequential pipeline. */
  lemma AloneIsApply(cfg: Config, w: World, i: nat, tools: seq<Tool>, msgs: seq<Message>, forced: set<Bytes>)
    returns (n: nat)
    requires Starts(w, i, tools, msgs, forced)
    ensures var v := Alone(cfg, w, i, n);
            var st := Observe(w.session, CallNames(msgs));
            && i < |v.handlers| && v.handlers[i].pc == RecordingCacheHit
            && v.session == st.(lastFingerprints := Some(OfMessages(Pipeline.Forward(msgs))))
            && exists kept, dropped ::
                 && Pipeline.Pruned(cfg.enabled, cfg.protectedTools, tools, msgs, forced, st, kept, dropped)
                 && v.handlers[i].kept == NamesAt(kept) && DropNames(v.handlers[i].dropped) == dropped
  {
    var k := AlonePrunes(cfg, w, i, tools, msgs, forced);
    n := k + 2;
    AloneNext(cfg, w, i, k);
    AloneNext(cfg, w, i, k + 1);
  }

  // ----- what the cache-hit gate guarantees -----

  /** This action records a response. */
  predicate Records(w: World, a: Action) {
    a.Advance? && a.h < |w.handlers| && w.handlers[a.h].pc.RecordingCacheHit?
  }

  /** The last of the actions, taken from w, that records a response. */
  function LastRecord(cfg: Config, w: World, actions: seq<Action>): (a: Option<Action>)
    ensures a.Some? ==> a.value.Advance?
  {
    if actions == [] then None else
    var front, a := actions[..|actions| - 1], actions[|actions| - 1];
    if Records(RunFrom(cfg, w, front), a) then Some(a) else LastRecord(cfg, w, front)
  }

  lemma FlagStep(cfg: Config, w: World, a: Action)
    ensures Do(cfg, w, a).session.lastCacheHit == if Records(w, a) then a.hit else w.session.lastCacheHit
  {
  }

  lemma RunNext(cfg: Config, w: World, actions: seq<Action>)
    requires actions != []
    ensures var front, a := actions[..|actions| - 1], actions[|actions| - 1];
            && RunFrom(cfg, w, actions) == Do(cfg, RunFrom(cfg, w, front), a)
            && LastRecord(cfg, w, actions)
               == if Records(RunFrom(cfg, w, front), a) then Some(a) else LastRecord(cfg, w, front)
  {
  }

  /** The flag is that of the last recorded response, or the old one if none was recorded. */
  lemma {:induction false} FlagIsLastRecord(cfg: Config, w: World, actions: seq<Action>)
    ensures var last := LastRecord(cfg, w, actions);
            RunFrom(cfg, w, actions).session.lastCacheHit ==
            if last.Some? then last.value.hit else w.session.lastCacheHit
  {
    if actions != [] {
      var front, a := actions[..|actions| - 1], actions[|actions| - 1];
      FlagIsLastRecord(cfg, w, front);
      RunNext(cfg, w, actions);
      FlagStep(cfg, RunFrom(cfg, w, front), a);
    }
  }

  /** Whatever follows a passed gate, the session shows a hit exactly when the last response
      recorded since is one. */
  lemma HitAfterGate(cfg: Config, w: World, i: nat, any: bool, mid: seq<Action>)
    requires i < |w.handlers| && w.handlers[i].pc == ReadingCacheHit
    requires Do(cfg, w, Advance(i, any)).handlers[i].pc == Checking(0)
    ensures var passed := Do(cfg, w, Advance(i, any));
            var last := LastRecord(cfg, passed, mid);
            RunFrom(cfg, passed, mid).session.lastCacheHit <==> last.Some? && last.value.hit
  {
    FlagIsLastRecord(cfg, Do(cfg, w, Advance(i, any)), mid);
  }

  /** The t-th action is handler i passing the cache-hit gate. */
  predicate PassesGate(cfg: Config, actions: seq<Action>, i: nat, t: nat)
    requires t < |actions|
  {
    var w := Run(cfg, actions[..t]);
    && actions[t].Advance? && actions[t].h == i < |w.handlers|
    && w.handlers[i].pc == ReadingCacheHit && !w.session.lastCacheHit
  }

  /** The t-th action is handler i dropping d. */
  predicate Drops(cfg: Config, actions: seq<Action>, i: nat, t: nat, d: Dropped)
    requires t < |actions|
  {
    var w := Run(cfg, actions[..t]);
    && actions[t].Advance? && actions[t].h == i < |w.handlers| && w.handlers[i].pc.Checking?
    && Do(cfg, w, actions[t]).handlers[i].dropped == w.handlers[i].dropped + [d]
  }

  /** Every handler in the middle of its checks has passed the gate, and has only checked since. */
  lemma {:induction false} GateBehind(cfg: Config, actions: seq<Action>, i: nat) returns (g: nat)
    requires i < |Run(cfg, actions).handlers| && Run(cfg, actions).handlers[i].pc.Checking?
    ensures g < |actions| && PassesGate(cfg, actions, i, g)
    ensures forall t :: g < t <= |actions| ==>
              var w := Run(cfg, actions[..t]); i < |w.handlers| && w.handlers[i].pc.Checking?
  {
    var n := |actions| - 1;
    var front := actions[..n];
    var w := Run(cfg, front);
    assert forall t :: 0 <= t <= n ==> front[..t] == actions[..t];
    assert actions[..n + 1] == actions;
    assert i < |w.handlers|;
    if w.handlers[i].pc.Checking? {
      g := GateBehind(cfg, front, i);
    } else {
      g := n;
    }
  }

  /** Every drop on record happened at some step. */
  lemma {:induction false} DropHappened(cfg: Config, actions: seq<Action>, i: nat, d: Dropped) returns (t: nat)
    requires i < |Run(cfg, actions).handlers| && d in Run(cfg, actions).handlers[i].dropped
    ensures t < |actions| && Drops(cfg, actions, i, t, d)
  {
    var n := |actions| - 1;
    var front := actions[..n];
    var w := Run(cfg, front);
    assert forall t :: 0 <= t <= n ==> front[..t] == actions[..t];
    if i < |w.handlers| && d in w.handlers[i].dropped {
      t := DropHappened(cfg, front, i, d);
    } else {
      t := n;
    }
  }

  /** From a passed gate g to a later step t. */
  lemma FlagSinceGate(cfg: Config, actions: seq<Action>, i: nat, g: nat, t: nat)
    requires g < t <= |actions| && PassesGate(cfg, actions, i, g)
    ensures var last := LastRecord(cfg, Run(cfg, actions[..g + 1]), actions[g + 1..t]);
            Run(cfg, actions[..t]).session.lastCacheHit <==> last.Some? && last.value.hit
  {
    assert actions[..g + 1][..g] == actions[..g];
    assert actions[..t] == actions[..g + 1] + actions[g + 1..t];
    RunSplits(cfg, INITIAL, actions[..g + 1], actions[g + 1..t]);
    HitAfterGate(cfg, Run(cfg, actions[..g]), i, actions[g].hit, actions[g + 1..t]);
  }

  /** For every tool dropped in a run: its handler passed the gate while the last response
      was no hit, and at the drop the session shows a hit exactly when another handler's
      response recorded since then, the last one, is a hit. */
  lemma DropUnderHit(cfg: Config, actions: seq<Action>, i: nat, d: Dropped) returns (g: nat, t: nat)
    requires i < |Run(cfg, actions).handlers| && d in Run(cfg, actions).handlers[i].dropped
    ensures g < t < |actions| && PassesGate(cfg, actions, i, g) && Drops(cfg, actions, i, t, d)
    ensures var last := LastRecord(cfg, Run(cfg, actions[..g + 1]), actions[g + 1..t]);
            && (Run(cfg, actions[..t]).session.lastCacheHit <==> last.Some? && last.value.hit)
            && (last.Some? ==> last.value.h != i)
  {
    t := DropHappened(cfg, actions, i, d);
    g := GateBehind(cfg, actions[..t], i);
    assert forall u :: 0 <= u <= t ==> actions[..t][..u] == actions[..u];
    FlagSinceGate(cfg, actions, i, g, t);
    RecordedByAnother(cfg, actions, i, g, t);
  }

  lemma {:induction false} RecordedByAnother(cfg: Config, actions: seq<Action>, i: nat, g: nat, t: nat)
    requires g < t <= |actions|
    requires forall u :: g < u <= t ==>
               var w := Run(cfg, actions[..u]); i < |w.handlers| && w.handlers[i].pc.Checking?
    ensures var last := LastRecord(cfg, Run(cfg, actions[..g + 1]), actions[g + 1..t]);
            last.Some? ==> last.value.h != i
    decreases t
  {
    if g + 1 < t {
      RecordedByAnother(cfg, actions, i, g, t - 1);
      var passed, mid := Run(cfg, actions[..g + 1]), actions[g + 1..t];
      assert mid[..|mid| - 1] == actions[g + 1..t - 1];
      assert actions[..t - 1] == actions[..g + 1] + actions[g + 1..t - 1];
      RunSplits(cfg, INITIAL, actions[..g + 1], actions[g + 1..t - 1]);
      RunNext(cfg, passed, mid);
      assert Records(Run(cfg, actions[..t - 1]), actions[t - 1]) ==> actions[t - 1].h != i;
    }
  }

  // ----- and an input where it does not hold back a drop -----

  ghost predicate Reachable(cfg: Config, w: World) {
    exists actions :: Run(cfg, actions) == w
  }

  lemma ReachNext(cfg: Config, w: World, a: Action) returns (v: World)
    requires Reachable(cfg, w)
    ensures v == Do(cfg, w, a) && Reachable(cfg, v)
  {
    v := Do(cfg, w, a);
    var actions :| Run(cfg, actions) == w;
    assert (actions + [a])[..|actions|] == actions;
    assert Run(cfg, actions + [a]) == v;
  }

  const IDLE: Request := Request([], [], {}, [])

  lemma ThreeArrive(cfg: Config, last: Request) returns (w: World)
    ensures Reachable(cfg, w)
    ensures w == World(FRESH, [], [Handler(IDLE, Observing, 0, [], []), Handler(IDLE, Observing, 0, [], []),
                                   Handler(last, Observing, 0, [], [])])
  {
    assert Run(cfg, []) == INITIAL;
    w := ReachNext(cfg, INITIAL, Arrive(IDLE));
    w := ReachNext(cfg, w, Arrive(IDLE));
    w := ReachNext(cfg, w, Arrive(last));
  }

  lemma TwoObserve(cfg: Config, last: Request) returns (w: World)
    ensures Reachable(cfg, w)
    ensures w == World(SessionState(2, map[], None, false), [[], []],
                       [Handler(IDLE, ReadingFingerprints, 0, [], []), Handler(IDLE, ReadingFingerprints, 1, [], []),
                        Handler(last, Observing, 0, [], [])])
  {
    w := ThreeArrive(cfg, last);
    w := ReachNext(cfg, w, Advance(0, false));
    w := ReachNext(cfg, w, Advance(1, false));
  }

  /** A third handler has passed both gates and is about to check its only tool. */
  lemma PrunerPastGate(cfg: Config, tool: Bytes) returns (w: World)
    requires cfg.enabled
    ensures Reachable(cfg, w) && |w.handlers| == 3
    ensures w.handlers[0] == Handler(IDLE, ReadingFingerprints, 0, [], [])
    ensures w.handlers[2] == Handler(Request([tool], [], {}, []), Checking(0), 2, [], [])
    ensures w.session == SessionState(3, map[], None, false)
  {
    w := TwoObserve(cfg, Request([tool], [], {}, []));
    w := ReachNext(cfg, w, Advance(2, false));
    w := ReachNext(cfg, w, Advance(2, false));
    w := ReachNext(cfg, w, Advance(2, false));
  }

  /** A tool can be dropped although the session's last recorded response was a cache
      hit: another handler records the hit between this handler's gate and its check. */
  lemma CacheHitGateIsNotAtomic(cfg: Config, tool: Bytes)
    requires cfg.enabled && tool !in cfg.protectedTools
    ensures exists w, i: nat :: Reachable(cfg, w) && i < |w.handlers| && w.session.lastCacheHit
              && Do(cfg, w, Advance(i, false)).handlers[i].dropped == w.handlers[i].dropped + [Dropped(tool, |w.log|)]
  {
    var w := PrunerPastGate(cfg, tool);
    w := ReachNext(cfg, w, Advance(0, false));
    w := ReachNext(cfg, w, Advance(0, false));
    w := ReachNext(cfg, w, Advance(0, true));
    assert w.session.lastCacheHit && w.session.toolsUsed == map[];
    assert Do(cfg, w, Advance(2, false)).handlers[2].dropped == [] + [Dropped(tool, |w.log|)];
  }
}
