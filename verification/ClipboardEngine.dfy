/**
 The clipboard sync engine over the in-memory backend
 (crates/bridge-clipboard/src/engine.rs, crates/bridge-clipboard/src/backend/memory.rs).
 */
module ClipboardEngine {
  import opened Common
  import opened EchoGuards

  datatype ImageFormat = Png | Jpeg | Bmp | Webp

  datatype Content =
    | Text(text: string)
    | Html(html: string, plain: Option<string>)
    | Image(format: ImageFormat, data: Bytes, width: nat, height: nat)

  datatype Entry = Entry(origin: NodeId, sequence: nat, contentHash: Hash, byteSize: nat, sensitive: bool,
                         content: Content)

  datatype Message = Sync(entry: Entry) | Clear(origin: NodeId, sequence: nat) | Ack

  /** What the engine takes from outside: its identity, Blake3 over contents, payload sizes, the policy. */
  datatype Env = Env(
    local: NodeId,
    hashOf: Content -> Hash,
    sizeOf: Content -> nat,
    allows: (Content, bool) -> bool)

  const CHANNEL_CAPACITY: nat := 64
  const U64_COUNT: nat := 0x1_0000_0000_0000_0000
  /** The hash every remote `Clear` records. */
  const ZERO_HASH: Hash :=
    [0, 0, 0, 0, 0, 0, 0, 0, 0, 0, 0, 0, 0, 0, 0, 0,
     0, 0, 0, 0, 0, 0, 0, 0, 0, 0, 0, 0, 0, 0, 0, 0]

  // ---------- backend ----------

  /** Stored content and the monitor's unread notifications. When a notification is sent to a full
      channel the oldest is overwritten and the monitor's next receive reports a lag. */
  datatype BackendState = BackendState(content: Option<Content>, queue: seq<Content>, lagged: bool)

  function SetContent(b: BackendState, c: Content): BackendState {
    if |b.queue| >= CHANNEL_CAPACITY
    then BackendState(Some(c), b.queue[1..] + [c], true)
    else BackendState(Some(c), b.queue + [c], b.lagged)
  }

  class MemoryBackend {
    var content: Option<Content>
    var queue: seq<Content>
    var lagged: bool

    ghost function State(): BackendState
      reads this
    {
      BackendState(content, queue, lagged)
    }

    constructor ()
      ensures State() == BackendState(None, [], false)
    {
      content, queue, lagged := None, [], false;
    }

    method Set(c: Content)
      modifies this
      ensures State() == SetContent(old(State()), c)
    {
      content := Some(c);
      if |queue| >= CHANNEL_CAPACITY {
        queue := queue[1..];
        lagged := true;
      }
      queue := queue + [c];
    }

    method Clear()
      modifies this
      ensures State() == old(State()).(content := None)
    {
      content := None;
    }
  }

  // ---------- engine ----------

  datatype EngineState = EngineState(guard: GuardState, nextSequence: nat, backend: BackendState, monitoring: bool)

  datatype LocalOutcome = Rejected | Suppressed | Broadcast(entry: Entry)

  function HandleLocal(env: Env, s: EngineState, c: Content, sensitive: bool): (EngineState, LocalOutcome) {
    var hash := env.hashOf(c);
    if !env.allows(c, sensitive) then (s, Rejected)
    else if hash in s.guard.seen then (s, Suppressed)
    else
      (s.(guard := PushHash(s.guard, hash), nextSequence := (s.nextSequence + 1) % U64_COUNT),
       Broadcast(Entry(env.local, s.nextSequence, hash, env.sizeOf(c), sensitive, c)))
  }

  datatype IncomingOutcome = Ignored | Corrupted | Blocked | Stale | Applied | Cleared

  function HandleIncoming(env: Env, s: EngineState, msg: Message): (EngineState, IncomingOutcome) {
    match msg
    case Sync(e) =>
      if e.origin == env.local then (s, Ignored)
      else if env.hashOf(e.content) != e.contentHash || env.sizeOf(e.content) != e.byteSize then (s, Corrupted)
      else if !env.allows(e.content, e.sensitive) then (s, Blocked)
      else if !Fresh(s.guard, e.origin, e.sequence, e.contentHash) then (s, Stale)
      else (s.(guard := RecordReceived(s.guard, e.origin, e.sequence, e.contentHash),
               backend := SetContent(s.backend, e.content)), Applied)
    case Clear(origin, sequence) =>
      if origin == env.local then (s, Ignored)
      else if !Fresh(s.guard, origin, sequence, ZERO_HASH) then (s, Stale)
      else (s.(guard := RecordReceived(s.guard, origin, sequence, ZERO_HASH),
               backend := s.backend.(content := None)), Cleared)
    case Ack => (s, Ignored)
  }

  /** One turn of the monitor loop. A lag ends the loop for good. */
  function MonitorTurn(env: Env, s: EngineState): (EngineState, LocalOutcome) {
    if !s.monitoring then (s, Rejected)
    else if s.backend.lagged then (s.(monitoring := false), Rejected)
    else if s.backend.queue == [] then (s, Rejected)
    else HandleLocal(env, s.(backend := s.backend.(queue := s.backend.queue[1..])), s.backend.queue[0], false)
  }

  /** Turns until the queue is drained or the loop has ended. */
  function MonitorAll(env: Env, s: EngineState): EngineState
    decreases |s.backend.queue|
  {
    if !s.monitoring || s.backend.lagged || s.backend.queue == [] then MonitorTurn(env, s).0
    else MonitorAll(env, MonitorTurn(env, s).0)
  }

  class ClipboardSyncEngine {
    const env: Env
    const guard: EchoGuard
    const backend: MemoryBackend
    var sequence: nat
    var monitoring: bool

    ghost predicate Valid()
      reads this, guard
    {
      guard.Valid()
    }

    ghost function State(): EngineState
      reads this, guard, backend
    {
      EngineState(guard.State(), sequence, backend.State(), monitoring)
    }

    constructor (env: Env, backend: MemoryBackend)
      ensures Valid() && fresh(guard) && this.backend == backend && this.env == env
      ensures State() == EngineState(NewGuard(DEFAULT_CAPACITY), 1, backend.State(), true)
    {
      this.env := env;
      this.backend := backend;
      this.guard := new EchoGuard(DEFAULT_CAPACITY);
      this.sequence := 1;
      this.monitoring := true;
    }

    method HandleLocalChange(c: Content, sensitive: bool) returns (r: LocalOutcome)
      requires Valid()
      modifies this`sequence, guard
      ensures Valid()
      ensures (State(), r) == HandleLocal(env, old(State()), c, sensitive)
      ensures guard.log == if r.Broadcast? then old(guard.log) + [env.hashOf(c)] else old(guard.log)
    {
      if !env.allows(c, sensitive) {
        return Rejected;
      }
      var hash := env.hashOf(c);
      var known := guard.ShouldSuppress(hash);
      if known {
        return Suppressed;
      }
      var seqNo := sequence;
      sequence := (sequence + 1) % U64_COUNT;
      guard.RecordSent(hash);
      return Broadcast(Entry(env.local, seqNo, hash, env.sizeOf(c), sensitive, c));
    }

    method HandleIncomingFrame(msg: Message) returns (r: IncomingOutcome)
      requires Valid()
      modifies guard, backend
      ensures Valid()
      ensures (State(), r) == HandleIncoming(env, old(State()), msg)
    {
      match msg
      case Sync(e) =>
        if e.origin == env.local {
          return Ignored;
        }
        if env.hashOf(e.content) != e.contentHash || env.sizeOf(e.content) != e.byteSize {
          return Corrupted;
        }
        if !env.allows(e.content, e.sensitive) {
          return Blocked;
        }
        var isNew := guard.Record(e.origin, e.sequence, e.contentHash);
        if !isNew {
          return Stale;
        }
        backend.Set(e.content);
        return Applied;
      case Clear(origin, sequence) =>
        if origin == env.local {
          return Ignored;
        }
        var isNew := guard.Record(origin, sequence, ZERO_HASH);
        if !isNew {
          return Stale;
        }
        backend.Clear();
        return Cleared;
      case Ack =>
        return Ignored;
    }

    /** The monitor loop up to the point where it would block or ends. */
    method RunMonitor()
      requires Valid()
      modifies this, guard, backend
      ensures Valid()
      ensures State() == MonitorAll(env, old(State()))
    {
      while monitoring && !backend.lagged && backend.queue != []
        invariant Valid()
        invariant MonitorAll(env, State()) == MonitorAll(env, old(State()))
        decreases |backend.queue|
      {
        var c := backend.queue[0];
        backend.queue := backend.queue[1..];
        var r := HandleLocalChange(c, false);
      }
      if backend.lagged {
        monitoring := false;
      }
    }
  }
}
