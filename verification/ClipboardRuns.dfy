/**
 Whole runs of the clipboard engine: applications copying, peers sending in any order and with any
 repetition, the monitor loop taking its turns, and direct calls of `handle_local_change`.
 */
module ClipboardRuns {
  import opened Common
  import opened EchoGuards
  import opened ClipboardEngine

  /** A notification in the monitor's queue. For content applied from a peer it remembers how long the
      guard's log was, how many notifications stood ahead and how many direct calls had been made. */
  datatype Pending = Pending(content: Content, remote: bool, stamp: nat, ahead: nat, calls: nat)

  datatype System = System(
    engine: EngineState,
    log: seq<Hash>,
    pending: seq<Pending>,
    calls: nat,
    /** Origin and number of every entry and every `Clear` that took effect. */
    applied: seq<(NodeId, nat)>,
    sent: seq<Entry>,
    /** The entries applied from peers. */
    taken: seq<Entry>)

  datatype Step =
    | AppCopies(content: Content)
    | Receives(msg: Message)
    | MonitorTakes
    | LocalCall(content: Content, sensitive: bool)

  function Start(content: Option<Content>): System {
    System(EngineState(NewGuard(DEFAULT_CAPACITY), 1, BackendState(content, [], false), true),
           [], [], 0, [], [], [])
  }

  function Enqueue(pending: seq<Pending>, p: Pending): seq<Pending> {
    (if |pending| >= CHANNEL_CAPACITY then pending[1..] else pending) + [p]
  }

  function Dequeue(s: System): seq<Pending> {
    if s.engine.monitoring && !s.engine.backend.lagged && s.engine.backend.queue != [] && s.pending != []
    then s.pending[1..] else s.pending
  }

  /** The system after the engine handled a local change. */
  function Announce(s: System, engine': EngineState, outcome: LocalOutcome): System {
    match outcome
    case Broadcast(e) => s.(engine := engine', log := s.log + [e.contentHash], sent := s.sent + [e])
    case _ => s.(engine := engine')
  }

  function AfterSync(env: Env, s: System, e: Entry): System {
    var result := HandleIncoming(env, s.engine, Sync(e));
    if !result.1.Applied? then s.(engine := result.0)
    else
      System(result.0,
             s.log + [e.contentHash],
             Enqueue(s.pending, Pending(e.content, true, |s.log| + 1, |s.pending|, s.calls)),
             s.calls,
             s.applied + [(e.origin, e.sequence)],
             s.sent,
             s.taken + [e])
  }

  function AfterClear(env: Env, s: System, origin: NodeId, sequence: nat): System {
    var result := HandleIncoming(env, s.engine, Clear(origin, sequence));
    if !result.1.Cleared? then s.(engine := result.0)
    else s.(engine := result.0, log := s.log + [ZERO_HASH], applied := s.applied + [(origin, sequence)])
  }

  function After(env: Env, s: System, step: Step): System {
    match step
    case AppCopies(c) =>
      s.(engine := s.engine.(backend := SetContent(s.engine.backend, c)),
         pending := Enqueue(s.pending, Pending(c, false, 0, 0, 0)))
    case Receives(msg) =>
      (match msg
       case Sync(e) => AfterSync(env, s, e)
       case Clear(origin, sequence) => AfterClear(env, s, origin, sequence)
       case Ack => s)
    case MonitorTakes =>
      var result := MonitorTurn(env, s.engine);
      Announce(s.(pending := Dequeue(s)), result.0, result.1)
    case LocalCall(c, sensitive) =>
      var result := HandleLocal(env, s.engine, c, sensitive);
      Announce(s.(calls := s.calls + 1), result.0, result.1)
  }

  function Run(env: Env, content: Option<Content>, steps: seq<Step>): System {
    if steps == [] then Start(content)
    else After(env, Run(env, content, steps[..|steps| - 1]), steps[|steps| - 1])
  }

  // ---------- the invariant ----------

  /** Direct calls tolerated while a notification waits: 255 - 63 ahead - 63 behind - 1 for `Clear`. */
  const MAX_CALLS: nat := 128

  /** `n` hashes entered the guard after position `stamp`, at most one of them allowed for free if it is the zero
      hash. */
  function ZeroAllowance(log: seq<Hash>, stamp: nat): nat
    requires stamp <= |log|
  {
    if ZERO_HASH in log[stamp..] then 1 else 0
  }

  /** The notification at index `i` was recorded at `stamp`, and what has entered the guard since is paid
      for by the notifications behind it, those that were ahead and are gone, direct calls, and one `Clear`. */
  ghost predicate Tracked(env: Env, s: System, i: nat)
    requires i < |s.pending|
  {
    var p := s.pending[i];
    && 1 <= p.stamp <= |s.log| && s.log[p.stamp - 1] == env.hashOf(p.content)
    && i <= p.ahead < CHANNEL_CAPACITY && p.calls <= s.calls
    && (s.calls - p.calls <= MAX_CALLS ==>
          |s.log| - p.stamp <= (|s.pending| - 1 - i) + (p.ahead - i) + (s.calls - p.calls) +
              ZeroAllowance(s.log, p.stamp))
  }

  ghost predicate QueueOk(s: System) {
    && |s.pending| == |s.engine.backend.queue| <= CHANNEL_CAPACITY
    && forall i :: 0 <= i < |s.pending| ==> s.pending[i].content == s.engine.backend.queue[i]
  }

  ghost predicate EchoOk(env: Env, s: System) {
    !s.engine.backend.lagged ==> forall i: nat :: i < |s.pending| && s.pending[i].remote ==> Tracked(env, s, i)
  }

  /** Entries applied from one origin have strictly increasing sequence numbers, and the guard knows the last. */
  ghost predicate OrderOk(s: System) {
    && (forall i, j :: 0 <= i < j < |s.applied| && s.applied[i].0 == s.applied[j].0 ==> s.applied[i].1 < s.applied[j].1)
    && (forall i :: 0 <= i < |s.applied| ==>
          s.applied[i].0 in s.engine.guard.sequences && s.applied[i].1 <= s.engine.guard.sequences[s.applied[i].0])
  }

  ghost predicate GuardOk(s: System) {
    s.engine.guard.capacity == DEFAULT_CAPACITY && Refines(s.engine.guard, s.log)
  }

  // ---------- preservation ----------

  /** A local change touches the guard's window and the counter, nothing else. */
  lemma GuardAfterLocal(env: Env, s: System, engine: EngineState, c: Content, sensitive: bool)
    requires GuardOk(s) && engine.guard == s.engine.guard
    ensures var r := HandleLocal(env, engine, c, sensitive);
            GuardOk(Announce(s, r.0, r.1)) && r.0.guard.sequences == s.engine.guard.sequences
            && r.0.backend == engine.backend && r.0.monitoring == engine.monitoring
  {
    PushRefines(s.engine.guard, s.log, env.hashOf(c));
  }

  lemma GuardAfterReceipt(s: System, origin: NodeId, sequence: nat, hash: Hash)
    requires GuardOk(s) && Fresh(s.engine.guard, origin, sequence, hash)
    ensures var g := RecordReceived(s.engine.guard, origin, sequence, hash);
            && g.capacity == DEFAULT_CAPACITY && Refines(g, s.log + [hash])
            && g.sequences == s.engine.guard.sequences[origin := sequence]
  {
    PushRefines(s.engine.guard.(sequences := s.engine.guard.sequences[origin := sequence]), s.log, hash);
  }

  lemma GuardKept(env: Env, s: System, step: Step)
    requires GuardOk(s)
    ensures GuardOk(After(env, s, step))
  {
    match step
    case AppCopies(_) =>
    case Receives(msg) => GuardKeptByMessage(env, s, msg);
    case MonitorTakes => GuardKeptByMonitor(env, s);
    case LocalCall(c, sensitive) => GuardAfterLocal(env, s.(calls := s.calls + 1), s.engine, c, sensitive);
  }

  lemma GuardKeptBySync(env: Env, s: System, e: Entry)
    requires GuardOk(s)
    ensures GuardOk(AfterSync(env, s, e))
  {
    if Fresh(s.engine.guard, e.origin, e.sequence, e.contentHash) {
      GuardAfterReceipt(s, e.origin, e.sequence, e.contentHash);
    }
  }

  lemma GuardKeptByClear(env: Env, s: System, origin: NodeId, sequence: nat)
    requires GuardOk(s)
    ensures GuardOk(AfterClear(env, s, origin, sequence))
  {
    if Fresh(s.engine.guard, origin, sequence, ZERO_HASH) {
      GuardAfterReceipt(s, origin, sequence, ZERO_HASH);
    }
  }

  lemma GuardKeptByMessage(env: Env, s: System, msg: Message)
    requires GuardOk(s)
    ensures GuardOk(After(env, s, Receives(msg)))
  {
    match msg
    case Sync(e) => GuardKeptBySync(env, s, e);
    case Clear(origin, sequence) => GuardKeptByClear(env, s, origin, sequence);
    case Ack =>
  }

  lemma GuardKeptByMonitor(env: Env, s: System)
    requires GuardOk(s)
    ensures GuardOk(After(env, s, MonitorTakes))
    ensures After(env, s, MonitorTakes).engine.guard.sequences == s.engine.guard.sequences
  {
    var e := s.engine;
    if e.monitoring && !e.backend.lagged && e.backend.queue != [] {
      GuardAfterLocal(env, s.(pending := Dequeue(s)), e.(backend := e.backend.(queue := e.backend.queue[1..])),
                      e.backend.queue[0], false);
    }
  }

  lemma QueueKept(env: Env, s: System, step: Step)
    requires QueueOk(s)
    ensures QueueOk(After(env, s, step))
  {
    match step
    case Receives(msg) => QueueKeptByMessage(env, s, msg);
    case _ =>
  }

  lemma QueueKeptByMessage(env: Env, s: System, msg: Message)
    requires QueueOk(s)
    ensures QueueOk(After(env, s, Receives(msg)))
  {
  }

  /** Extending the list of applied entries by one newer than the guard has from that origin. */
  lemma OrderExtended(s: System, s': System, origin: NodeId, sequence: nat)
    requires OrderOk(s)
    requires origin in s.engine.guard.sequences ==> sequence > s.engine.guard.sequences[origin]
    requires s'.applied == s.applied + [(origin, sequence)]
    requires s'.engine.guard.sequences == s.engine.guard.sequences[origin := sequence]
    ensures OrderOk(s')
  {
  }

  lemma OrderKept(env: Env, s: System, step: Step)
    requires GuardOk(s) && OrderOk(s)
    ensures OrderOk(After(env, s, step))
  {
    match step
    case AppCopies(_) =>
    case Receives(msg) => OrderKeptByMessage(env, s, msg);
    case MonitorTakes => GuardKeptByMonitor(env, s);
    case LocalCall(c, sensitive) => GuardAfterLocal(env, s, s.engine, c, sensitive);
  }

  lemma OrderKeptByMessage(env: Env, s: System, msg: Message)
    requires GuardOk(s) && OrderOk(s)
    ensures OrderOk(After(env, s, Receives(msg)))
  {
    var s' := After(env, s, Receives(msg));
    if s'.applied != s.applied {
      var origin := if msg.Sync? then msg.entry.origin else msg.origin;
      var sequence := if msg.Sync? then msg.entry.sequence else msg.sequence;
      GuardAfterReceipt(s, origin, sequence, if msg.Sync? then msg.entry.contentHash else ZERO_HASH);
      OrderExtended(s, s', origin, sequence);
    }
  }

  /** The bound, spent: a tracked notification's hash is still in the guard's window. */
  lemma TrackedIsSuppressed(env: Env, s: System, i: nat)
    requires GuardOk(s) && QueueOk(s) && i < |s.pending| && Tracked(env, s, i)
    requires s.calls - s.pending[i].calls <= MAX_CALLS
    ensures env.hashOf(s.pending[i].content) in s.engine.guard.seen
    ensures |s.log| - s.pending[i].stamp < DEFAULT_CAPACITY
  {
  }

  /** A hash absent from the window is absent from everything that entered after a tracked notification. */
  lemma AbsentSinceStamp(env: Env, s: System, i: nat, hash: Hash)
    requires GuardOk(s) && QueueOk(s) && i < |s.pending| && Tracked(env, s, i)
    requires s.calls - s.pending[i].calls <= MAX_CALLS && hash !in s.engine.guard.seen
    ensures hash !in s.log[s.pending[i].stamp..]
  {
  }

  /** A notification that moves from index `j` to `i` stays tracked if the step pays for what it logged. */
  lemma TrackedMoves(env: Env, s: System, s': System, j: nat, i: nat)
    requires j < |s.pending| && i < |s'.pending| && i <= j && s'.pending[i] == s.pending[j]
    requires Tracked(env, s, j) && s.calls <= s'.calls
    requires s'.log == s.log || (|s'.log| == |s.log| + 1 && s.log == s'.log[..|s.log|])
    requires s.calls - s.pending[j].calls <= MAX_CALLS ==>
               |s'.log| - |s.log| <=
                 (|s'.pending| - 2 * i + s'.calls) - (|s.pending| - 2 * j + s.calls)
                 + (if s'.log != s.log && s'.log[|s.log|] == ZERO_HASH && ZERO_HASH !in s.log[s.pending[j].stamp..]
                    then 1 else 0)
    ensures Tracked(env, s', i)
  {
  }

  lemma TrackedAfterReceive(env: Env, s: System, msg: Message, i: nat)
    requires GuardOk(s) && QueueOk(s) && EchoOk(env, s)
    requires var s' := After(env, s, Receives(msg));
             !s'.engine.backend.lagged && i < |s'.pending| && s'.pending[i].remote
    ensures Tracked(env, After(env, s, Receives(msg)), i)
  {
    var s' := After(env, s, Receives(msg));
    if i == |s.pending| {
      assert s'.log[|s'.log|..] == [];
    } else {
      assert Tracked(env, s, i);
      if msg.Clear? && s'.log != s.log && s.calls - s.pending[i].calls <= MAX_CALLS {
        AbsentSinceStamp(env, s, i, ZERO_HASH);
      }
      TrackedMoves(env, s, s', i, i);
    }
  }

  lemma TrackedAfterMonitor(env: Env, s: System, i: nat)
    requires QueueOk(s) && EchoOk(env, s)
    requires var s' := After(env, s, MonitorTakes);
             !s'.engine.backend.lagged && i < |s'.pending| && s'.pending[i].remote
    ensures Tracked(env, After(env, s, MonitorTakes), i)
  {
    var s' := After(env, s, MonitorTakes);
    var j := if |s'.pending| < |s.pending| then i + 1 else i;
    assert Tracked(env, s, j);
    TrackedMoves(env, s, s', j, i);
  }

  lemma TrackedKept(env: Env, s: System, step: Step, i: nat)
    requires GuardOk(s) && QueueOk(s) && EchoOk(env, s)
    requires var s' := After(env, s, step); !s'.engine.backend.lagged && i < |s'.pending| && s'.pending[i].remote
    ensures Tracked(env, After(env, s, step), i)
  {
    match step
    case Receives(msg) => TrackedAfterReceive(env, s, msg, i);
    case MonitorTakes => TrackedAfterMonitor(env, s, i);
    case _ =>
      assert Tracked(env, s, i);
      TrackedMoves(env, s, After(env, s, step), i, i);
  }

  lemma {:induction false} RunKeepsInvariant(env: Env, content: Option<Content>, steps: seq<Step>)
    ensures var s := Run(env, content, steps);
            GuardOk(s) && QueueOk(s) && EchoOk(env, s) && OrderOk(s)
  {
    if steps == [] {
    } else {
      var init, step := steps[..|steps| - 1], steps[|steps| - 1];
      var s := Run(env, content, init);
      RunKeepsInvariant(env, content, init);
      GuardKept(env, s, step);
      QueueKept(env, s, step);
      OrderKept(env, s, step);
      var s' := After(env, s, step);
      forall i: nat | !s'.engine.backend.lagged && i < |s'.pending| && s'.pending[i].remote
        ensures Tracked(env, After(env, s, step), i)
      {
        TrackedKept(env, s, step, i);
      }
    }
  }

  // ---------- main results ----------

  /** No echo: in every run, when the monitor takes the notification of content applied from a peer, it
      broadcasts nothing, provided at most 128 direct calls were made while the notification waited. */
  lemma NoEcho(env: Env, content: Option<Content>, steps: seq<Step>)
    ensures var s := Run(env, content, steps);
            s.pending != [] && s.pending[0].remote && s.calls - s.pending[0].calls <= MAX_CALLS ==>
              !MonitorTurn(env, s.engine).1.Broadcast?
  {
    var s := Run(env, content, steps);
    RunKeepsInvariant(env, content, steps);
    if s.pending != [] && s.pending[0].remote && s.calls - s.pending[0].calls <= MAX_CALLS && !s.engine.backend.lagged {
      TrackedIsSuppressed(env, s, 0);
    }
  }

  lemma CallsUncounted(env: Env, s: System, step: Step)
    requires !step.LocalCall?
    ensures After(env, s, step).calls == s.calls
  {
  }

  lemma {:induction false} NoCallsCounted(env: Env, content: Option<Content>, steps: seq<Step>)
    requires forall step :: step in steps ==> !step.LocalCall?
    ensures Run(env, content, steps).calls == 0
  {
    if steps == [] {
    } else {
      var init, last := steps[..|steps| - 1], steps[|steps| - 1];
      assert forall step :: step in init ==> step in steps;
      NoCallsCounted(env, content, init);
      assert last in steps;
      CallsUncounted(env, Run(env, content, init), last);
    }
  }

  /** The engine as the node drives it, with the monitor as its only caller, never re-broadcasts content applied
      from a peer: whatever applications copy and peers send, in whatever order. */
  lemma MonitorNeverEchoes(env: Env, content: Option<Content>, steps: seq<Step>)
    requires forall step :: step in steps ==> !step.LocalCall?
    ensures var s := Run(env, content, steps);
            s.pending != [] && s.pending[0].remote ==> !MonitorTurn(env, s.engine).1.Broadcast?
  {
    NoCallsCounted(env, content, steps);
    NoEcho(env, content, steps);
  }

  function CopiesIn(steps: seq<Step>): nat {
    if steps == [] then 0
    else CopiesIn(steps[..|steps| - 1]) + (if steps[|steps| - 1].AppCopies? then 1 else 0)
  }

  /** Notifications of application copies that are still waiting. */
  function LocalPending(pending: seq<Pending>): nat {
    if pending == [] then 0 else (if pending[0].remote then 0 else 1) + LocalPending(pending[1..])
  }

  lemma {:induction false} LocalPendingSnoc(pending: seq<Pending>, p: Pending)
    ensures LocalPending(pending + [p]) == LocalPending(pending) + (if p.remote then 0 else 1)
  {
    if pending == [] {
      assert (pending + [p])[1..] == [];
    } else {
      assert (pending + [p])[1..] == pending[1..] + [p];
      LocalPendingSnoc(pending[1..], p);
    }
  }

  lemma EnqueuedPending(pending: seq<Pending>, p: Pending)
    ensures LocalPending(Enqueue(pending, p)) <= LocalPending(pending) + (if p.remote then 0 else 1)
  {
    LocalPendingSnoc(pending, p);
    if pending != [] {
      LocalPendingSnoc(pending[1..], p);
    }
  }

  /** Each broadcast uses up the notification of an application copy. */
  lemma BroadcastsPaidFor(env: Env, s: System, step: Step)
    requires QueueOk(s) && !step.LocalCall?
    requires s.pending != [] && s.pending[0].remote ==> !MonitorTurn(env, s.engine).1.Broadcast?
    ensures var s' := After(env, s, step);
            |s'.sent| + LocalPending(s'.pending) <= |s.sent| + LocalPending(s.pending) +
                (if step.AppCopies? then 1 else 0)
  {
    match step
    case AppCopies(c) => EnqueuedPending(s.pending, Pending(c, false, 0, 0, 0));
    case Receives(msg) =>
      if msg.Sync? {
        EnqueuedPending(s.pending, Pending(msg.entry.content, true, |s.log| + 1, |s.pending|, s.calls));
      }
    case MonitorTakes =>
  }

  /** With the monitor as the only local caller, an engine never broadcasts more often than applications on its own
      device have copied, whatever it receives. So a copy that travels from device to device is not sent back. */
  lemma {:induction false} BroadcastsAtMostCopies(env: Env, content: Option<Content>, steps: seq<Step>)
    requires forall step :: step in steps ==> !step.LocalCall?
    ensures var s := Run(env, content, steps);
            |s.sent| + LocalPending(s.pending) <= CopiesIn(steps)
  {
    if steps == [] {
    } else {
      var init, last := steps[..|steps| - 1], steps[|steps| - 1];
      assert last in steps && forall step :: step in init ==> step in steps;
      BroadcastsAtMostCopies(env, content, init);
      MonitorNeverEchoes(env, content, init);
      RunKeepsInvariant(env, content, init);
      BroadcastsPaidFor(env, Run(env, content, init), last);
    }
  }

  /** Exactly when the monitor would re-broadcast content applied from a peer: when at least 256 hashes have entered
      the guard since its own did last. */
  lemma EchoExactlyBeyondWindow(env: Env, content: Option<Content>, steps: seq<Step>)
    requires var s := Run(env, content, steps);
             && s.engine.monitoring && !s.engine.backend.lagged
             && s.pending != [] && s.pending[0].remote && env.allows(s.pending[0].content, false)
    ensures var s := Run(env, content, steps); var p := s.pending[0];
            var last := LastIndex(s.log, env.hashOf(p.content));
            && 1 <= p.stamp <= last + 1 <= |s.log| && s.log[last] == env.hashOf(p.content)
            && (MonitorTurn(env, s.engine).1.Broadcast? <==> |s.log| - (last + 1) >= DEFAULT_CAPACITY)
  {
    var s := Run(env, content, steps);
    RunKeepsInvariant(env, content, steps);
    var hash := env.hashOf(s.pending[0].content);
    assert Tracked(env, s, 0);
    LastIndexFinds(s.log, hash);
    SuppressedExactlyWithinWindow(s.engine.guard, s.log, hash);
  }

  /** One entry from a peer, then `n` direct calls with the given contents. */
  function Flood(e: Entry, contents: seq<Content>, n: nat): seq<Step>
    requires n <= |contents|
  {
    [Receives(Sync(e))] + seq(n, i requires 0 <= i < n => LocalCall(contents[i], false))
  }

  /** An acceptable entry and acceptable contents, all with different hashes. */
  ghost predicate Flooding(env: Env, e: Entry, contents: seq<Content>) {
    && e.origin != env.local && env.hashOf(e.content) == e.contentHash && env.sizeOf(e.content) == e.byteSize
    && env.allows(e.content, e.sensitive) && env.allows(e.content, false)
    && (forall i :: 0 <= i < |contents| ==> env.allows(contents[i], false) && env.hashOf(contents[i]) != e.contentHash)
    && (forall i, j :: 0 <= i < j < |contents| ==> env.hashOf(contents[i]) != env.hashOf(contents[j]))
  }

  ghost predicate Flooded(env: Env, e: Entry, contents: seq<Content>, n: nat, s: System)
    requires n <= |contents|
  {
    && s.engine.monitoring && s.engine.backend == BackendState(Some(e.content), [e.content], false)
    && s.pending == [Pending(e.content, true, 1, 0, 0)]
    && |s.log| == n + 1 && s.log[0] == e.contentHash
    && forall i :: 0 <= i < n ==> s.log[i + 1] == env.hashOf(contents[i])
  }

  lemma FloodStep(env: Env, e: Entry, contents: seq<Content>, n: nat, s: System)
    requires n < |contents| && Flooding(env, e, contents) && GuardOk(s) && Flooded(env, e, contents, n, s)
    ensures Flooded(env, e, contents, n + 1, After(env, s, LocalCall(contents[n], false)))
  {
    var hash := env.hashOf(contents[n]);
    forall q | 0 <= q < |s.log| ensures s.log[q] != hash {
      if q > 0 {
        assert s.log[q - 1 + 1] == env.hashOf(contents[q - 1]);
      }
    }
    assert forall h :: h in s.engine.guard.history ==> h in s.log;
    var s' := After(env, s, LocalCall(contents[n], false));
    assert s'.log == s.log + [hash];
  }

  lemma {:induction false} FloodState(env: Env, e: Entry, contents: seq<Content>, n: nat)
    requires n <= |contents| && Flooding(env, e, contents)
    ensures Flooded(env, e, contents, n, Run(env, None, Flood(e, contents, n)))
  {
    var steps := Flood(e, contents, n);
    if n == 0 {
      assert steps == [Receives(Sync(e))] && steps[..0] == [];
    } else {
      var init := Flood(e, contents, n - 1);
      assert steps[..|steps| - 1] == init;
      FloodState(env, e, contents, n - 1);
      RunKeepsInvariant(env, None, init);
      FloodStep(env, e, contents, n - 1, Run(env, None, init));
    }
  }

  /** The bound on direct calls is needed: 256 of them with new contents push the entry out of the window,
      and its own notification is then broadcast. */
  lemma FloodCausesEcho(env: Env, e: Entry, contents: seq<Content>)
    requires |contents| == DEFAULT_CAPACITY && Flooding(env, e, contents)
    ensures MonitorTurn(env, Run(env, None, Flood(e, contents, DEFAULT_CAPACITY)).engine).1.Broadcast?
  {
    var s := Run(env, None, Flood(e, contents, DEFAULT_CAPACITY));
    FloodState(env, e, contents, DEFAULT_CAPACITY);
    forall q | 1 <= q < |s.log| ensures s.log[q] != e.contentHash {
      assert s.log[q] == env.hashOf(contents[q - 1]);
    }
    EchoExactlyBeyondWindow(env, None, Flood(e, contents, DEFAULT_CAPACITY));
  }

  /** In every run, over replayed, reordered and duplicated messages, what is applied from each origin has
      strictly increasing sequence numbers, so nothing is applied twice. */
  lemma AppliedInOrder(env: Env, content: Option<Content>, steps: seq<Step>, i: nat, j: nat)
    requires i < j < |Run(env, content, steps).applied|
    ensures var applied := Run(env, content, steps).applied;
            && applied[i] != applied[j]
            && (applied[i].0 == applied[j].0 ==> applied[i].1 < applied[j].1)
  {
    RunKeepsInvariant(env, content, steps);
  }

  /** A message that is not applied leaves guard and backend untouched; one that is applied leaves its
      hash in the guard, so its replay is refused and changes nothing. */
  lemma AppliedOrUntouched(env: Env, s: EngineState, msg: Message)
    ensures var r := HandleIncoming(env, s, msg);
            if r.1.Applied? || r.1.Cleared? then
              && HandleIncoming(env, r.0, msg) == (r.0, Stale)
              && r.0.backend.content == (if msg.Sync? then Some(msg.entry.content) else None)
            else r.0 == s
  {
  }

  // ---------- exactly what is applied, and what is broadcast ----------

  /** From another node, and with hash and size that match its content. */
  predicate ForeignAndIntact(env: Env, e: Entry) {
    e.origin != env.local && e.contentHash == env.hashOf(e.content) && e.byteSize == env.sizeOf(e.content)
  }

  /** Not among the last 256 hashes that entered the guard, and newer than all that took effect from that origin. */
  ghost predicate NewTo(s: System, origin: NodeId, sequence: nat, hash: Hash) {
    && hash !in Window(s.log, 256)
    && forall i :: 0 <= i < |s.applied| && s.applied[i].0 == origin ==> s.applied[i].1 < sequence
  }

  /** The guard's number for an origin is one that took effect. */
  ghost predicate NumbersKnown(s: System) {
    forall o :: o in s.engine.guard.sequences ==> (o, s.engine.guard.sequences[o]) in s.applied
  }

  ghost predicate TakenOk(env: Env, s: System) {
    forall k :: 0 <= k < |s.taken| ==>
      ForeignAndIntact(env, s.taken[k]) && env.allows(s.taken[k].content, s.taken[k].sensitive)
  }

  lemma NumbersExtended(s: System, s': System, origin: NodeId, sequence: nat)
    requires NumbersKnown(s) && s'.applied == s.applied + [(origin, sequence)]
    requires s'.engine.guard.sequences == s.engine.guard.sequences[origin := sequence]
    ensures NumbersKnown(s')
  {
    assert s'.applied[|s.applied|] == (origin, sequence);
    forall o | o in s'.engine.guard.sequences ensures (o, s'.engine.guard.sequences[o]) in s'.applied {
      if o != origin {
        assert (o, s.engine.guard.sequences[o]) in s.applied;
      }
    }
  }

  lemma NumbersKeptByMessage(env: Env, s: System, msg: Message)
    requires GuardOk(s) && NumbersKnown(s)
    ensures NumbersKnown(After(env, s, Receives(msg)))
  {
    var s' := After(env, s, Receives(msg));
    if s'.applied != s.applied {
      var origin := if msg.Sync? then msg.entry.origin else msg.origin;
      var sequence := if msg.Sync? then msg.entry.sequence else msg.sequence;
      GuardAfterReceipt(s, origin, sequence, if msg.Sync? then msg.entry.contentHash else ZERO_HASH);
      NumbersExtended(s, s', origin, sequence);
    }
  }

  lemma NumbersKept(env: Env, s: System, step: Step)
    requires GuardOk(s) && NumbersKnown(s)
    ensures NumbersKnown(After(env, s, step))
  {
    match step
    case AppCopies(_) =>
    case Receives(msg) => NumbersKeptByMessage(env, s, msg);
    case MonitorTakes => GuardKeptByMonitor(env, s);
    case LocalCall(c, sensitive) => GuardAfterLocal(env, s, s.engine, c, sensitive);
  }

  lemma TakenKept(env: Env, s: System, step: Step)
    requires TakenOk(env, s)
    ensures TakenOk(env, After(env, s, step))
  {
  }

  /** In every run each entry that was applied came from another node, with hash and size that match its content, and
      is admitted by the policy. */
  lemma {:induction false} AppliedEntries(env: Env, content: Option<Content>, steps: seq<Step>)
    ensures TakenOk(env, Run(env, content, steps)) && NumbersKnown(Run(env, content, steps))
  {
    if steps == [] {
    } else {
      var init, step := steps[..|steps| - 1], steps[|steps| - 1];
      AppliedEntries(env, content, init);
      RunKeepsInvariant(env, content, init);
      TakenKept(env, Run(env, content, init), step);
      NumbersKept(env, Run(env, content, init), step);
    }
  }

  lemma FreshExactlyIfNew(s: System, origin: NodeId, sequence: nat, hash: Hash)
    requires GuardOk(s) && OrderOk(s) && NumbersKnown(s)
    ensures Fresh(s.engine.guard, origin, sequence, hash) <==> NewTo(s, origin, sequence, hash)
  {
    assert s.engine.guard.history == Window(s.log, 256);
    if NewTo(s, origin, sequence, hash) && origin in s.engine.guard.sequences {
      assert (origin, s.engine.guard.sequences[origin]) in s.applied;
    }
  }

  /** How an entry from the wire fares, in every reachable state: the first condition it fails decides, and unless it
      meets them all nothing changes; otherwise it is what the clipboard holds. */
  lemma IncomingEntryExactly(env: Env, content: Option<Content>, steps: seq<Step>, e: Entry)
    ensures var s := Run(env, content, steps); var s' := After(env, s, Receives(Sync(e)));
            var outcome := HandleIncoming(env, s.engine, Sync(e)).1;
            if e.origin == env.local then outcome == Ignored && s' == s
            else if !ForeignAndIntact(env, e) then outcome == Corrupted && s' == s
            else if !env.allows(e.content, e.sensitive) then outcome == Blocked && s' == s
            else if !NewTo(s, e.origin, e.sequence, e.contentHash) then outcome == Stale && s' == s
            else && outcome == Applied && s'.taken == s.taken + [e] && s'.log == s.log + [e.contentHash]
                 && s'.applied == s.applied + [(e.origin, e.sequence)] && s'.sent == s.sent
                 && s'.engine.backend == SetContent(s.engine.backend, e.content)
                 && s'.engine.backend.content == Some(e.content)
  {
    var s := Run(env, content, steps);
    RunKeepsInvariant(env, content, steps);
    AppliedEntries(env, content, steps);
    FreshExactlyIfNew(s, e.origin, e.sequence, e.contentHash);
  }

  /** A `Clear` from the wire empties the clipboard exactly if it is another node's and new; the policy has no say. */
  lemma IncomingClearExactly(env: Env, content: Option<Content>, steps: seq<Step>, origin: NodeId, sequence: nat)
    ensures var s := Run(env, content, steps); var s' := After(env, s, Receives(Clear(origin, sequence)));
            if origin == env.local || !NewTo(s, origin, sequence, ZERO_HASH) then s' == s
            else && s'.engine.backend == s.engine.backend.(content := None)
                 && s'.log == s.log + [ZERO_HASH] && s'.applied == s.applied + [(origin, sequence)]
                 && s'.taken == s.taken && s'.sent == s.sent && s'.pending == s.pending
  {
    var s := Run(env, content, steps);
    RunKeepsInvariant(env, content, steps);
    AppliedEntries(env, content, steps);
    FreshExactlyIfNew(s, origin, sequence, ZERO_HASH);
  }

  /** What a local change adds to the broadcasts in system `s`. */
  function Broadcasts(env: Env, s: System, c: Content, sensitive: bool): seq<Entry> {
    if env.allows(c, sensitive) && env.hashOf(c) !in Window(s.log, 256)
    then [Entry(env.local, (1 + |s.sent|) % 0x1_0000_0000_0000_0000, env.hashOf(c), env.sizeOf(c), sensitive, c)]
    else []
  }

  lemma LocalBroadcasts(env: Env, s: System, t: System, e: EngineState, c: Content, sensitive: bool)
    requires GuardOk(s) && e.guard == s.engine.guard && e.nextSequence == s.engine.nextSequence
    requires s.engine.nextSequence == (1 + |s.sent|) % 0x1_0000_0000_0000_0000 && t.sent == s.sent
    ensures var r := HandleLocal(env, e, c, sensitive);
            && Announce(t, r.0, r.1).sent == s.sent + Broadcasts(env, s, c, sensitive)
            && r.0.backend == e.backend && r.0.monitoring == e.monitoring
  {
    assert s.engine.guard.history == Window(s.log, 256);
    assert s.sent + [] == s.sent;
  }

  lemma CallBroadcasts(env: Env, s: System, c: Content, sensitive: bool)
    requires GuardOk(s) && SentOk(env, s)
    ensures var s' := After(env, s, LocalCall(c, sensitive));
            s'.sent == s.sent + Broadcasts(env, s, c, sensitive) && s'.engine.backend == s.engine.backend
  {
    LocalBroadcasts(env, s, s.(calls := s.calls + 1), s.engine, c, sensitive);
  }

  /** In every reachable state a direct call broadcasts the content under the next number exactly if the policy admits
      it and its hash is not among the last 256. It does not touch what the clipboard holds. */
  lemma BroadcastExactlyIfNew(env: Env, content: Option<Content>, steps: seq<Step>, c: Content, sensitive: bool)
    ensures var s := Run(env, content, steps); var s' := After(env, s, LocalCall(c, sensitive));
            s'.sent == s.sent + Broadcasts(env, s, c, sensitive) && s'.engine.backend == s.engine.backend
  {
    RunKeepsInvariant(env, content, steps);
    SentEntries(env, content, steps);
    CallBroadcasts(env, Run(env, content, steps), c, sensitive);
  }

  lemma TurnBroadcasts(env: Env, s: System)
    requires GuardOk(s) && SentOk(env, s)
    ensures var s' := After(env, s, MonitorTakes); var b := s.engine.backend;
            && s'.engine.backend.content == b.content && s'.engine.backend.lagged == b.lagged
            && (s'.engine.monitoring <==> s.engine.monitoring && !b.lagged)
            && if s.engine.monitoring && !b.lagged && b.queue != []
               then s'.sent == s.sent + Broadcasts(env, s, b.queue[0], false) && s'.engine.backend.queue == b.queue[1..]
               else s'.sent == s.sent && s'.engine.backend == b
  {
    var e := s.engine;
    if e.monitoring && !e.backend.lagged && e.backend.queue != [] {
      LocalBroadcasts(env, s, s.(pending := Dequeue(s)), e.(backend := e.backend.(queue := e.backend.queue[1..])),
                      e.backend.queue[0], false);
    }
  }

  /** The monitor does the same, not marked sensitive, with the oldest notification, unless it has lagged and ended. */
  lemma MonitorBroadcastsExactlyIfNew(env: Env, content: Option<Content>, steps: seq<Step>)
    ensures var s := Run(env, content, steps); var s' := After(env, s, MonitorTakes); var b := s.engine.backend;
            && s'.engine.backend.content == b.content && s'.engine.backend.lagged == b.lagged
            && (s'.engine.monitoring <==> s.engine.monitoring && !b.lagged)
            && if s.engine.monitoring && !b.lagged && b.queue != []
               then s'.sent == s.sent + Broadcasts(env, s, b.queue[0], false) && s'.engine.backend.queue == b.queue[1..]
               else s'.sent == s.sent && s'.engine.backend == b
  {
    RunKeepsInvariant(env, content, steps);
    SentEntries(env, content, steps);
    TurnBroadcasts(env, Run(env, content, steps));
  }

  /** The engine after `n` turns of its monitor loop. */
  function Turns(env: Env, e: EngineState, n: nat): EngineState
    decreases n
  {
    if n == 0 then e else Turns(env, MonitorTurn(env, e).0, n - 1)
  }

  /** Left to itself, the loop takes one turn for each notification that waits and then blocks; if one was lost to a
      lag, it ends without taking any. */
  lemma {:induction false} MonitorDrainsQueue(env: Env, e: EngineState)
    ensures var b, e' := e.backend, MonitorAll(env, e);
            if !e.monitoring then e' == e
            else if b.lagged then e' == e.(monitoring := false)
            else e' == Turns(env, e, |b.queue|) && e'.monitoring && e'.backend == b.(queue := [])
    decreases |e.backend.queue|
  {
    if !e.monitoring || e.backend.lagged || e.backend.queue == [] {
    } else {
      MonitorDrainsQueue(env, MonitorTurn(env, e).0);
    }
  }

  /** Broadcast entries are the engine's own, intact, and numbered 1, 2, 3, ... modulo 2^64. */
  ghost predicate SentOk(env: Env, s: System) {
    && s.engine.nextSequence == (1 + |s.sent|) % U64_COUNT
    && forall k :: 0 <= k < |s.sent| ==>
         var e := s.sent[k];
         && e.origin == env.local && e.sequence == (1 + k) % U64_COUNT
         && e.contentHash == env.hashOf(e.content) && e.byteSize == env.sizeOf(e.content)
         && env.allows(e.content, e.sensitive)
  }

  lemma SentKept(env: Env, s: System, step: Step)
    requires SentOk(env, s)
    ensures SentOk(env, After(env, s, step))
  {
    var s' := After(env, s, step);
    assert s'.sent == s.sent || |s'.sent| == |s.sent| + 1;
    if |s'.sent| == |s.sent| + 1 {
      assert s'.sent[|s.sent|].sequence == s.engine.nextSequence;
      NextNumber(|s.sent|);
    }
  }

  lemma NextNumber(n: nat)
    ensures ((1 + n) % U64_COUNT + 1) % U64_COUNT == (2 + n) % U64_COUNT
  {
  }

  lemma {:induction false} SentEntries(env: Env, content: Option<Content>, steps: seq<Step>)
    ensures SentOk(env, Run(env, content, steps))
  {
    if steps == [] {
    } else {
      SentEntries(env, content, steps[..|steps| - 1]);
      SentKept(env, Run(env, content, steps[..|steps| - 1]), steps[|steps| - 1]);
    }
  }

  /** From one device to another and no further: content that one engine broadcasts is applied by any peer that
      admits it and has seen neither its hash nor a later number from that origin, and the peer's next monitor turn
      on it broadcasts nothing. */
  lemma CopyReachesPeerOnce(env: Env, s: EngineState, c: Content, sensitive: bool, peerEnv: Env, peer: EngineState)
    requires HandleLocal(env, s, c, sensitive).1.Broadcast?
    requires peerEnv.local != env.local && peerEnv.hashOf == env.hashOf && peerEnv.sizeOf == env.sizeOf
    requires peerEnv.allows(c, sensitive)
    requires Fresh(peer.guard, env.local, s.nextSequence, env.hashOf(c)) && peer.backend.queue == []
    ensures var e := HandleLocal(env, s, c, sensitive).1.entry;
            var (peer', outcome) := HandleIncoming(peerEnv, peer, Sync(e));
            && outcome == Applied && peer'.backend.content == Some(c)
            && !MonitorTurn(peerEnv, peer').1.Broadcast?
            && !HandleLocal(env, HandleLocal(env, s, c, sensitive).0, c, sensitive).1.Broadcast?
  {
  }
}
