/** The trust-gated session (crates/bridge-session/src/session.rs, crates/bridge-session/src/state.rs). */
module Sessions {
  import opened Common
  import opened ShortAuth
  import opened Pairing
  import opened Ceremonies
  import PairingRuns

  // ---------- trust store ----------

  type TrustStore = map<NodeId, TrustedPeer>

  datatype TrustError = StoredKeyDiffers | Revoked

  /** `TrustStore::is_trusted`. */
  function IsTrusted(store: TrustStore, nodeId: NodeId, presented: Bytes): Result<bool, TrustError> {
    if nodeId !in store then Ok(false)
    else if store[nodeId].publicKey != presented then Err(StoredKeyDiffers)
    else match store[nodeId].trust
         case RevokedState => Err(Revoked)
         case TrustedState => Ok(true)
         case PendingState => Ok(false)
  }

  /** `TrustStore::revoke_peer`. */
  function Revoking(store: TrustStore, nodeId: NodeId): TrustStore {
    if nodeId in store then store[nodeId := store[nodeId].(trust := RevokedState)] else store
  }

  // ---------- session state ----------

  datatype SessionState = AuthenticatedUntrusted | InPairing | TrustedSession | Terminated

  /** How `execute_pairing` ended: the record it saved, a refusal by the local human, or any error return,
      including one that leaves the ceremony unfinished. */
  datatype Ending = Succeeded(peer: TrustedPeer) | RefusedHere | Errored

  datatype Input = Incoming(frame: Frame) | EndOfStream | PairWith(ending: Ending)

  datatype Event =
    | TrustEstablished
    | PairingStarted
    | PairingAborted
    | Disconnected
    | ClipboardApplied(payload: Bytes)
    | FileHandled(payload: Bytes)
    | PongSent(nonce: nat)

  /** A session has a clipboard engine, a receive directory, both or neither. */
  datatype Config = Config(clipboard: bool, receiveDir: bool)

  /** A session with the node that authenticated as `remote` with the key `key`. */
  datatype PeerSession = PeerSession(remote: NodeId, key: Bytes, state: SessionState, trace: seq<Event>)

  /** The trust decision at the end of either handshake; a mismatched or revoked key opens no session. */
  function Opened(store: TrustStore, nodeId: NodeId, presented: Bytes): Result<PeerSession, TrustError> {
    match IsTrusted(store, nodeId, presented)
    case Ok(true) => Ok(PeerSession(nodeId, presented, TrustedSession, [TrustEstablished]))
    case Ok(false) => Ok(PeerSession(nodeId, presented, AuthenticatedUntrusted, []))
    case Err(e) => Err(e)
  }

  /** What a frame does to a session in state `state`. */
  function FrameEvents(cfg: Config, state: SessionState, frame: Frame): seq<Event> {
    match frame
    case Ping(nonce) => [PongSent(nonce)]
    case Disconnect => [Disconnected]
    case Data(channel, payload) =>
      if channel == CHANNEL_CLIPBOARD && state.TrustedSession? && cfg.clipboard then [ClipboardApplied(payload)]
      else if channel == CHANNEL_FILE_TRANSFER && state.TrustedSession? && cfg.receiveDir then [FileHandled(payload)]
      else []
    case _ => []
  }

  function After(cfg: Config, s: PeerSession, input: Input): PeerSession {
    match input
    case Incoming(frame) =>
      s.(state := if frame.Disconnect? then Terminated else s.state,
         trace := s.trace + FrameEvents(cfg, s.state, frame))
    case EndOfStream => s
    case PairWith(Succeeded(_)) => s.(state := TrustedSession, trace := s.trace + [PairingStarted, TrustEstablished])
    case PairWith(RefusedHere) =>
      s.(state := AuthenticatedUntrusted, trace := s.trace + [PairingStarted, PairingAborted])
    case PairWith(Errored) => s.(state := InPairing, trace := s.trace + [PairingStarted, PairingAborted])
  }

  /** The store after the input; `save_peer` inserts or replaces. */
  function StoreAfter(store: TrustStore, input: Input): TrustStore {
    if input.PairWith? && input.ending.Succeeded? then store[input.ending.peer.nodeId := input.ending.peer] else store
  }

  // ---------- many sessions, one store ----------

  /** The sessions a node has had, by number, and the store they share. */
  datatype Node = Node(store: TrustStore, sessions: map<nat, PeerSession>)

  datatype Step =
    | Connect(id: nat, nodeId: NodeId, presented: Bytes)
    | Feed(id: nat, input: Input)
    | Revoke(nodeId: NodeId)

  function NodeAfter(cfg: Config, n: Node, step: Step): Node {
    match step
    case Connect(id, nodeId, presented) =>
      var attempt := Opened(n.store, nodeId, presented);
      if id in n.sessions || attempt.Err? then n else n.(sessions := n.sessions[id := attempt.value])
    case Feed(id, input) =>
      if id !in n.sessions then n
      else Node(StoreAfter(n.store, input), n.sessions[id := After(cfg, n.sessions[id], input)])
    case Revoke(nodeId) => n.(store := Revoking(n.store, nodeId))
  }

  function Run(cfg: Config, n: Node, steps: seq<Step>): Node
    decreases |steps|
  {
    if steps == [] then n else NodeAfter(cfg, Run(cfg, n, steps[..|steps| - 1]), steps[|steps| - 1])
  }

  // ---------- effects need trust ----------

  predicate IsEffect(e: Event) {
    e.ClipboardApplied? || e.FileHandled?
  }

  predicate Breaks(e: Event) {
    e.PairingStarted? || e.PairingAborted? || e.Disconnected?
  }

  /** Trust was established, and since then no pairing was attempted or failed and nobody disconnected. */
  ghost predicate Authorised(trace: seq<Event>) {
    exists j :: 0 <= j < |trace| && trace[j].TrustEstablished? && forall k :: j < k < |trace| ==> !Breaks(trace[k])
  }

  ghost predicate EffectsAuthorised(trace: seq<Event>) {
    forall i :: 0 <= i < |trace| && IsEffect(trace[i]) ==> Authorised(trace[..i])
  }

  lemma AuthorisedSnoc(trace: seq<Event>, e: Event)
    ensures Authorised(trace + [e]) <==> e.TrustEstablished? || (Authorised(trace) && !Breaks(e))
  {
    var t := trace + [e];
    if Authorised(t) && !e.TrustEstablished? {
      var j :| 0 <= j < |t| && t[j].TrustEstablished? && forall k :: j < k < |t| ==> !Breaks(t[k]);
      assert t[|trace|] == e && j < |trace| && trace[j] == t[j];
      assert forall k :: j < k < |trace| ==> trace[k] == t[k] && !Breaks(trace[k]);
    }
    if e.TrustEstablished? {
      assert t[|trace|] == e;
    } else if Authorised(trace) && !Breaks(e) {
      var j :| 0 <= j < |trace| && trace[j].TrustEstablished? && forall k :: j < k < |trace| ==> !Breaks(trace[k]);
      assert t[j] == trace[j];
      assert forall k :: j < k < |t| ==> t[k] == (if k < |trace| then trace[k] else e) && !Breaks(t[k]);
    }
  }

  lemma EffectsSnoc(trace: seq<Event>, e: Event)
    requires EffectsAuthorised(trace) && (IsEffect(e) ==> Authorised(trace))
    ensures EffectsAuthorised(trace + [e])
  {
    var t := trace + [e];
    forall i | 0 <= i < |t| && IsEffect(t[i]) ensures Authorised(t[..i]) {
      if i < |trace| {
        assert t[..i] == trace[..i];
      } else {
        assert t[..i] == trace;
      }
    }
  }

  /** The state field says exactly whether the trace authorises effects. */
  ghost predicate Gated(s: PeerSession) {
    (s.state.TrustedSession? <==> Authorised(s.trace)) && EffectsAuthorised(s.trace)
  }

  lemma OpenedIsGated(store: TrustStore, nodeId: NodeId, presented: Bytes)
    requires Opened(store, nodeId, presented).Ok?
    ensures Gated(Opened(store, nodeId, presented).value)
  {
    assert Gated(PeerSession(nodeId, presented, AuthenticatedUntrusted, []));
    AuthorisedSnoc([], TrustEstablished);
    EffectsSnoc([], TrustEstablished);
    assert [] + [TrustEstablished] == [TrustEstablished];
  }

  lemma AfterKeepsGated(cfg: Config, s: PeerSession, input: Input)
    requires Gated(s)
    ensures Gated(After(cfg, s, input))
  {
    var t := After(cfg, s, input).trace;
    match input
    case EndOfStream =>
    case PairWith(ending) =>
      var e := if ending.Succeeded? then TrustEstablished else PairingAborted;
      AuthorisedSnoc(s.trace, PairingStarted);
      EffectsSnoc(s.trace, PairingStarted);
      AuthorisedSnoc(s.trace + [PairingStarted], e);
      EffectsSnoc(s.trace + [PairingStarted], e);
      assert t == s.trace + [PairingStarted] + [e];
    case Incoming(frame) =>
      var events := FrameEvents(cfg, s.state, frame);
      if events == [] {
        assert t == s.trace;
      } else {
        AuthorisedSnoc(s.trace, events[0]);
        EffectsSnoc(s.trace, events[0]);
        assert t == s.trace + [events[0]];
      }
  }

  /** However a node's sessions are opened, fed and revoked, in every one of them each clipboard or file effect comes
      after trust was established in that session, with no pairing attempt and no disconnect in between; and its state
      is trusted exactly while that is so. */
  lemma {:induction false} EffectsNeedTrust(cfg: Config, store: TrustStore, steps: seq<Step>, id: nat)
    requires id in Run(cfg, Node(store, map[]), steps).sessions
    ensures var s := Run(cfg, Node(store, map[]), steps).sessions[id];
            && EffectsAuthorised(s.trace)
            && (s.state.TrustedSession? <==> Authorised(s.trace))
    decreases |steps|
  {
    if steps == [] {
    } else {
      var n, step := Run(cfg, Node(store, map[]), steps[..|steps| - 1]), steps[|steps| - 1];
      if id in n.sessions {
        EffectsNeedTrust(cfg, store, steps[..|steps| - 1], id);
        if step.Feed? && step.id == id {
          AfterKeepsGated(cfg, n.sessions[id], step.input);
        }
      } else {
        OpenedIsGated(n.store, step.nodeId, step.presented);
      }
    }
  }

  // ---------- where trust in the store comes from ----------

  /** The step saves a record of the node, if its session is open. */
  predicate Saves(step: Step, id: NodeId) {
    step.Feed? && step.input.PairWith? && step.input.ending.Succeeded? && step.input.ending.peer.nodeId == id
  }

  /** Step `i` saved this record in an open session, and the node has not been revoked since. */
  ghost predicate SavedAt(cfg: Config, n: Node, steps: seq<Step>, i: nat, peer: TrustedPeer) {
    && i < |steps| && Saves(steps[i], peer.nodeId) && steps[i].input.ending.peer == peer
    && steps[i].id in Run(cfg, n, steps[..i]).sessions
    && forall j :: i < j < |steps| ==> steps[j] != Revoke(peer.nodeId)
  }

  lemma SavedAtExtends(cfg: Config, n: Node, steps: seq<Step>, i: nat, peer: TrustedPeer)
    requires steps != [] && SavedAt(cfg, n, steps[..|steps| - 1], i, peer)
    requires steps[|steps| - 1] != Revoke(peer.nodeId)
    ensures SavedAt(cfg, n, steps, i, peer)
  {
    var init := steps[..|steps| - 1];
    assert steps[i] == init[i] && steps[..i] == init[..i];
    forall j | i < j < |steps| ensures steps[j] != Revoke(peer.nodeId) {
      assert j < |init| ==> steps[j] == init[j];
    }
  }

  /** A node that a device did not trust at first is trusted when it connects later only if, in some session in
      between, a ceremony succeeded and saved exactly that node with that key, and the node was not revoked since. */
  lemma {:induction false} LaterTrustNeedsPairing(cfg: Config, n: Node, steps: seq<Step>, id: NodeId, key: Bytes)
    returns (i: nat, peer: TrustedPeer)
    requires IsTrusted(Run(cfg, n, steps).store, id, key) == Ok(true) && IsTrusted(n.store, id, key) != Ok(true)
    ensures SavedAt(cfg, n, steps, i, peer)
    ensures peer == TrustedPeer(id, key, peer.name, TrustedState)
    decreases |steps|
  {
    var init, step := steps[..|steps| - 1], steps[|steps| - 1];
    var before := Run(cfg, n, init);
    if Saves(step, id) && step.id in before.sessions {
      i, peer := |steps| - 1, step.input.ending.peer;
    } else {
      assert IsTrusted(before.store, id, key) == Ok(true);
      i, peer := LaterTrustNeedsPairing(cfg, n, init, id, key);
      SavedAtExtends(cfg, n, steps, i, peer);
    }
  }

  /** Once revoked, a node opens no session until a ceremony saves it again. */
  lemma {:induction false} RevokedStaysOut(cfg: Config, n: Node, steps: seq<Step>, id: NodeId, key: Bytes)
    requires id in n.store && n.store[id].trust == RevokedState
    requires forall j :: 0 <= j < |steps| ==> !Saves(steps[j], id)
    ensures var store := Run(cfg, n, steps).store;
            id in store && store[id].trust == RevokedState && Opened(store, id, key).Err?
    decreases |steps|
  {
    if steps == [] {
    } else {
      var init := steps[..|steps| - 1];
      assert forall j :: 0 <= j < |init| ==> init[j] == steps[j];
      RevokedStaysOut(cfg, n, init, id, key);
      assert !Saves(steps[|steps| - 1], id);
    }
  }

  /** A pairing attempt or a disconnect. */
  predicate BreaksOff(input: Input) {
    input.PairWith? || (input.Incoming? && input.frame.Disconnect?)
  }

  /** What the steps feed to one session. */
  function FedTo(steps: seq<Step>, id: nat): seq<Input> {
    if steps == [] then []
    else
      var last := steps[|steps| - 1];
      FedTo(steps[..|steps| - 1], id) + (if last.Feed? && last.id == id then [last.input] else [])
  }

  function AfterAll(cfg: Config, s: PeerSession, inputs: seq<Input>): PeerSession
    decreases |inputs|
  {
    if inputs == [] then s else After(cfg, AfterAll(cfg, s, inputs[..|inputs| - 1]), inputs[|inputs| - 1])
  }

  /** An open session is moved by its own inputs and by nothing else that happens at the node. */
  lemma {:induction false} OpenSessionIsItsInputs(cfg: Config, n: Node, steps: seq<Step>, id: nat)
    requires id in n.sessions
    ensures id in Run(cfg, n, steps).sessions
    ensures Run(cfg, n, steps).sessions[id] == AfterAll(cfg, n.sessions[id], FedTo(steps, id))
    decreases |steps|
  {
    if steps == [] {
    } else {
      var init, last := steps[..|steps| - 1], steps[|steps| - 1];
      OpenSessionIsItsInputs(cfg, n, init, id);
      var fed := FedTo(init, id);
      if last.Feed? && last.id == id {
        assert (fed + [last.input])[..|fed|] == fed;
      } else {
        assert fed + [] == fed;
      }
    }
  }

  // ---------- exactly what a session does ----------

  /** The last of the inputs that establish or break off trust; the session may have been trusted before them all. */
  ghost predicate TrustedBy(trusted: bool, inputs: seq<Input>) {
    || (trusted && forall k :: 0 <= k < |inputs| ==> !BreaksOff(inputs[k]))
    || exists j :: 0 <= j < |inputs| && inputs[j].PairWith? && inputs[j].ending.Succeeded?
                   && forall k :: j < k < |inputs| ==> !BreaksOff(inputs[k])
  }

  lemma TrustedBySnoc(trusted: bool, inputs: seq<Input>, input: Input)
    ensures TrustedBy(trusted, inputs + [input]) <==>
            (input.PairWith? && input.ending.Succeeded?) || (TrustedBy(trusted, inputs) && !BreaksOff(input))
  {
    var all := inputs + [input];
    assert forall k :: 0 <= k < |inputs| ==> all[k] == inputs[k];
    assert all[|inputs|] == input;
    if TrustedBy(trusted, inputs) && !BreaksOff(input) {
      if exists j :: 0 <= j < |inputs| && inputs[j].PairWith? && inputs[j].ending.Succeeded?
                     && forall k :: j < k < |inputs| ==> !BreaksOff(inputs[k])
      {
        var j :| 0 <= j < |inputs| && inputs[j].PairWith? && inputs[j].ending.Succeeded?
                 && forall k :: j < k < |inputs| ==> !BreaksOff(inputs[k]);
        assert all[j].PairWith? && all[j].ending.Succeeded?;
      }
    }
  }

  /** The payloads of the data frames on a channel that arrived while the session was trusted, if it serves that
      channel. */
  ghost function Handled(trusted: bool, serves: bool, channel: nat, inputs: seq<Input>): seq<Bytes> {
    if inputs == [] then []
    else
      var init, last := inputs[..|inputs| - 1], inputs[|inputs| - 1];
      Handled(trusted, serves, channel, init) +
      (if serves && TrustedBy(trusted, init) && last.Incoming? && last.frame.Data? && last.frame.channel == channel
       then [last.frame.payload] else [])
  }

  /** The nonces of the pings among the inputs. */
  function PingsIn(inputs: seq<Input>): seq<nat> {
    if inputs == [] then []
    else
      var last := inputs[|inputs| - 1];
      PingsIn(inputs[..|inputs| - 1]) + (if last.Incoming? && last.frame.Ping? then [last.frame.nonce] else [])
  }

  function ClipboardPayloads(trace: seq<Event>): seq<Bytes> {
    if trace == [] then []
    else
      var last := trace[|trace| - 1];
      ClipboardPayloads(trace[..|trace| - 1]) + (if last.ClipboardApplied? then [last.payload] else [])
  }

  function FilePayloads(trace: seq<Event>): seq<Bytes> {
    if trace == [] then []
    else
      var last := trace[|trace| - 1];
      FilePayloads(trace[..|trace| - 1]) + (if last.FileHandled? then [last.payload] else [])
  }

  function PongNonces(trace: seq<Event>): seq<nat> {
    if trace == [] then []
    else
      var last := trace[|trace| - 1];
      PongNonces(trace[..|trace| - 1]) + (if last.PongSent? then [last.nonce] else [])
  }

  lemma FiltersSnoc(trace: seq<Event>, e: Event)
    ensures ClipboardPayloads(trace + [e]) ==
            ClipboardPayloads(trace) + (if e.ClipboardApplied? then [e.payload] else [])
    ensures FilePayloads(trace + [e]) == FilePayloads(trace) + (if e.FileHandled? then [e.payload] else [])
    ensures PongNonces(trace + [e]) == PongNonces(trace) + (if e.PongSent? then [e.nonce] else [])
  {
    assert (trace + [e])[..|trace|] == trace;
  }

  /** The trace `t` became `t'`, with this added to each of the three kinds of effect. */
  ghost predicate Adds(t: seq<Event>, t': seq<Event>, clip: seq<Bytes>, file: seq<Bytes>, pongs: seq<nat>) {
    && ClipboardPayloads(t') == ClipboardPayloads(t) + clip
    && FilePayloads(t') == FilePayloads(t) + file
    && PongNonces(t') == PongNonces(t) + pongs
  }

  lemma EventAdds(t: seq<Event>, e: Event)
    ensures Adds(t, t + [e], if e.ClipboardApplied? then [e.payload] else [],
                 if e.FileHandled? then [e.payload] else [], if e.PongSent? then [e.nonce] else [])
  {
    FiltersSnoc(t, e);
  }

  lemma PairingAdds(t: seq<Event>, e: Event)
    requires e.TrustEstablished? || e.PairingAborted?
    ensures Adds(t, t + [PairingStarted, e], [], [], [])
  {
    FiltersSnoc(t, PairingStarted);
    FiltersSnoc(t + [PairingStarted], e);
    assert t + [PairingStarted, e] == t + [PairingStarted] + [e];
  }

  lemma FrameAdds(cfg: Config, state: SessionState, t: seq<Event>, frame: Frame)
    ensures var data := frame.Data? && state.TrustedSession?;
            Adds(t, t + FrameEvents(cfg, state, frame),
                 if data && cfg.clipboard && frame.channel == 1 then [frame.payload] else [],
                 if data && cfg.receiveDir && frame.channel == 2 then [frame.payload] else [],
                 if frame.Ping? then [frame.nonce] else [])
  {
    var events := FrameEvents(cfg, state, frame);
    if events == [] {
      assert t + [] == t;
    } else {
      EventAdds(t, events[0]);
      assert events == [events[0]];
    }
  }

  /** What one input adds to the three kinds of effect. */
  lemma OneInputAdds(cfg: Config, s: PeerSession, input: Input)
    ensures var data := input.Incoming? && input.frame.Data? && s.state.TrustedSession?;
            Adds(s.trace, After(cfg, s, input).trace,
                 if data && cfg.clipboard && input.frame.channel == 1 then [input.frame.payload] else [],
                 if data && cfg.receiveDir && input.frame.channel == 2 then [input.frame.payload] else [],
                 if input.Incoming? && input.frame.Ping? then [input.frame.nonce] else [])
  {
    match input
    case EndOfStream =>
    case PairWith(ending) => PairingAdds(s.trace, if ending.Succeeded? then TrustEstablished else PairingAborted);
    case Incoming(frame) => FrameAdds(cfg, s.state, s.trace, frame);
  }

  /** The state that a breaking input leaves: trusted by a successful ceremony only, untrusted after a refusal here, in
      the ceremony still after an error, terminated by a disconnect. */
  function StateAfterBreak(input: Input): SessionState
    requires BreaksOff(input)
  {
    if input.Incoming? then Terminated
    else if input.ending.Succeeded? then TrustedSession
    else if input.ending.RefusedHere? then AuthenticatedUntrusted
    else InPairing
  }

  /** The last breaking input decides the state; without one it is as it was. */
  ghost predicate LastBreakDecides(s: PeerSession, inputs: seq<Input>, state: SessionState) {
    || (state == s.state && forall k :: 0 <= k < |inputs| ==> !BreaksOff(inputs[k]))
    || exists j :: 0 <= j < |inputs| && BreaksOff(inputs[j]) && state == StateAfterBreak(inputs[j])
                   && forall k :: j < k < |inputs| ==> !BreaksOff(inputs[k])
  }

  lemma LastBreakSnoc(cfg: Config, s: PeerSession, inputs: seq<Input>, t: PeerSession, input: Input)
    requires LastBreakDecides(s, inputs, t.state)
    ensures LastBreakDecides(s, inputs + [input], After(cfg, t, input).state)
  {
    var all := inputs + [input];
    assert all[|inputs|] == input && forall k :: 0 <= k < |inputs| ==> all[k] == inputs[k];
    if !BreaksOff(input) && !(forall k :: 0 <= k < |inputs| ==> !BreaksOff(inputs[k])) {
      var j :| 0 <= j < |inputs| && BreaksOff(inputs[j]) && t.state == StateAfterBreak(inputs[j])
               && forall k :: j < k < |inputs| ==> !BreaksOff(inputs[k]);
      assert BreaksOff(all[j]) && After(cfg, t, input).state == StateAfterBreak(all[j]);
    }
  }

  /** What `t` handed to the clipboard engine since `s` are, in order, the payloads on channel 1 that arrived while it
      was trusted, if it has an engine; likewise for files, channel 2 and the receive directory. */
  ghost predicate PayloadsExactly(cfg: Config, s: PeerSession, inputs: seq<Input>, t: PeerSession) {
    var trusted := s.state.TrustedSession?;
    && ClipboardPayloads(t.trace) == ClipboardPayloads(s.trace) + Handled(trusted, cfg.clipboard, 1, inputs)
    && FilePayloads(t.trace) == FilePayloads(s.trace) + Handled(trusted, cfg.receiveDir, 2, inputs)
  }

  /** `t` is what the inputs made of `s`, down to a pong for every ping. */
  ghost predicate DidExactly(cfg: Config, s: PeerSession, inputs: seq<Input>, t: PeerSession) {
    && PayloadsExactly(cfg, s, inputs, t)
    && PongNonces(t.trace) == PongNonces(s.trace) + PingsIn(inputs)
    && (t.state.TrustedSession? <==> TrustedBy(s.state.TrustedSession?, inputs))
    && LastBreakDecides(s, inputs, t.state)
  }

  lemma HandledSnoc(trusted: bool, serves: bool, channel: nat, inputs: seq<Input>, input: Input)
    ensures Handled(trusted, serves, channel, inputs + [input]) ==
            Handled(trusted, serves, channel, inputs) +
            (if serves && TrustedBy(trusted, inputs) && input.Incoming? && input.frame.Data?
                && input.frame.channel == channel
             then [input.frame.payload] else [])
    ensures PingsIn(inputs + [input]) ==
            PingsIn(inputs) + (if input.Incoming? && input.frame.Ping? then [input.frame.nonce] else [])
  {
    assert (inputs + [input])[..|inputs|] == inputs;
  }

  lemma Joined<T>(before: seq<T>, added: seq<T>, more: seq<T>, now: seq<T>)
    requires now == before + added + more
    ensures now == before + (added + more)
  {
  }

  lemma PayloadsOneMore(cfg: Config, s: PeerSession, inputs: seq<Input>, t: PeerSession, input: Input)
    requires PayloadsExactly(cfg, s, inputs, t)
    requires t.state.TrustedSession? <==> TrustedBy(s.state.TrustedSession?, inputs)
    ensures PayloadsExactly(cfg, s, inputs + [input], After(cfg, t, input))
  {
    var trusted, t' := s.state.TrustedSession?, After(cfg, t, input);
    OneInputAdds(cfg, t, input);
    var data := input.Incoming? && input.frame.Data? && t.state.TrustedSession?;
    var clip := if data && cfg.clipboard && input.frame.channel == 1 then [input.frame.payload] else [];
    var file := if data && cfg.receiveDir && input.frame.channel == 2 then [input.frame.payload] else [];
    HandledSnoc(trusted, cfg.clipboard, 1, inputs, input);
    HandledSnoc(trusted, cfg.receiveDir, 2, inputs, input);
    Joined(ClipboardPayloads(s.trace), Handled(trusted, cfg.clipboard, 1, inputs), clip, ClipboardPayloads(t'.trace));
    Joined(FilePayloads(s.trace), Handled(trusted, cfg.receiveDir, 2, inputs), file, FilePayloads(t'.trace));
  }

  lemma PongsOneMore(cfg: Config, s: PeerSession, inputs: seq<Input>, t: PeerSession, input: Input)
    requires PongNonces(t.trace) == PongNonces(s.trace) + PingsIn(inputs)
    ensures PongNonces(After(cfg, t, input).trace) == PongNonces(s.trace) + PingsIn(inputs + [input])
  {
    OneInputAdds(cfg, t, input);
    HandledSnoc(true, true, 1, inputs, input);
    Joined(PongNonces(s.trace), PingsIn(inputs),
           if input.Incoming? && input.frame.Ping? then [input.frame.nonce] else [],
           PongNonces(After(cfg, t, input).trace));
  }

  lemma TrustOneMore(cfg: Config, trusted: bool, inputs: seq<Input>, t: PeerSession, input: Input)
    requires t.state.TrustedSession? <==> TrustedBy(trusted, inputs)
    ensures After(cfg, t, input).state.TrustedSession? <==> TrustedBy(trusted, inputs + [input])
  {
    TrustedBySnoc(trusted, inputs, input);
  }

  lemma DidOneMore(cfg: Config, s: PeerSession, inputs: seq<Input>, t: PeerSession, input: Input)
    requires DidExactly(cfg, s, inputs, t)
    ensures DidExactly(cfg, s, inputs + [input], After(cfg, t, input))
  {
    PayloadsOneMore(cfg, s, inputs, t, input);
    PongsOneMore(cfg, s, inputs, t, input);
    TrustOneMore(cfg, s.state.TrustedSession?, inputs, t, input);
    LastBreakSnoc(cfg, s, inputs, t, input);
  }

  lemma {:induction false} InputsHandledExactly(cfg: Config, s: PeerSession, inputs: seq<Input>)
    ensures DidExactly(cfg, s, inputs, AfterAll(cfg, s, inputs))
    decreases |inputs|
  {
    if inputs == [] {
    } else {
      var init, last := inputs[..|inputs| - 1], inputs[|inputs| - 1];
      InputsHandledExactly(cfg, s, init);
      DidOneMore(cfg, s, init, AfterAll(cfg, s, init), last);
      assert inputs == init + [last];
    }
  }

  /** However a node's sessions are opened, fed and revoked, what an open one does from then on is exactly what the
      frames fed to it call for while it is trusted. */
  lemma SessionHandlesExactly(cfg: Config, n: Node, steps: seq<Step>, id: nat)
    requires id in n.sessions
    ensures id in Run(cfg, n, steps).sessions
    ensures DidExactly(cfg, n.sessions[id], FedTo(steps, id), Run(cfg, n, steps).sessions[id])
  {
    OpenSessionIsItsInputs(cfg, n, steps, id);
    InputsHandledExactly(cfg, n.sessions[id], FedTo(steps, id));
  }

  /** A session that has just opened has done nothing, and is trusted exactly if the store holds this node with this key
      as trusted; there is none exactly if the store holds the node with another key or as revoked. */
  lemma OpensExactly(store: TrustStore, nodeId: NodeId, presented: Bytes)
    ensures var r := Opened(store, nodeId, presented);
            && (r.Err? <==>
                  nodeId in store && (store[nodeId].publicKey != presented || store[nodeId].trust == RevokedState))
            && (r.Err? ==> r.error == if store[nodeId].publicKey != presented then StoredKeyDiffers else Revoked)
            && (r.Ok? ==>
                  && r.value.remote == nodeId && r.value.key == presented
                  && ClipboardPayloads(r.value.trace) == [] && FilePayloads(r.value.trace) == []
                  && r.value.state in {TrustedSession, AuthenticatedUntrusted}
                  && (r.value.state == TrustedSession <==>
                        nodeId in store && store[nodeId].publicKey == presented && store[nodeId].trust == TrustedState))
  {
    FiltersSnoc([], TrustEstablished);
    assert [] + [TrustEstablished] == [TrustEstablished];
  }

  /** At a node with any history, connecting under a number not in use opens a session exactly if the store does not
      hold that node with another key or as revoked; nothing else changes. */
  lemma ConnectOpensExactly(cfg: Config, n: Node, id: nat, nodeId: NodeId, presented: Bytes)
    requires id !in n.sessions
    ensures var n' := NodeAfter(cfg, n, Connect(id, nodeId, presented));
            var barred := nodeId in n.store
                          && (n.store[nodeId].publicKey != presented || n.store[nodeId].trust == RevokedState);
            && n'.store == n.store && n'.sessions - {id} == n.sessions
            && (id in n'.sessions <==> !barred)
            && (!barred ==> Opened(n.store, nodeId, presented) == Ok(n'.sessions[id]))
  {
    assert n.sessions - {id} == n.sessions;
  }

  /** A node that is stored under another key opens no session, whatever else happens, until a ceremony saves it
      again. */
  lemma {:induction false} OtherKeyStaysOut(cfg: Config, n: Node, steps: seq<Step>, id: NodeId, key: Bytes)
    requires id in n.store && n.store[id].publicKey != key
    requires forall j :: 0 <= j < |steps| ==> !Saves(steps[j], id)
    ensures var store := Run(cfg, n, steps).store;
            id in store && store[id].publicKey == n.store[id].publicKey && Opened(store, id, key).Err?
    decreases |steps|
  {
    if steps == [] {
    } else {
      var init := steps[..|steps| - 1];
      assert forall j :: 0 <= j < |init| ==> init[j] == steps[j];
      OtherKeyStaysOut(cfg, n, init, id, key);
      assert !Saves(steps[|steps| - 1], id);
    }
  }

  /** The events of the frames among the inputs, as a trusted session handles them. */
  function TrustedEvents(cfg: Config, inputs: seq<Input>): seq<Event> {
    if inputs == [] then []
    else
      var last := inputs[|inputs| - 1];
      TrustedEvents(cfg, inputs[..|inputs| - 1]) +
      (if last.Incoming? then FrameEvents(cfg, TrustedSession, last.frame) else [])
  }

  lemma BrokenOffStays(cfg: Config, s: PeerSession, input: Input)
    requires input.PairWith? ==> !input.ending.Succeeded?
    ensures After(cfg, s, input).state == TrustedSession <==> s.state == TrustedSession && !BreaksOff(input)
    ensures After(cfg, s, input).state == TrustedSession ==>
              After(cfg, s, input).trace ==
              s.trace + (if input.Incoming? then FrameEvents(cfg, TrustedSession, input.frame) else [])
  {
    assert s.trace + [] == s.trace;
  }

  lemma {:induction false} TrustedUntilBrokenOff(cfg: Config, s: PeerSession, inputs: seq<Input>)
    requires s.state == TrustedSession
    requires forall input :: input in inputs && input.PairWith? ==> !input.ending.Succeeded?
    ensures AfterAll(cfg, s, inputs).state == TrustedSession <==> forall input :: input in inputs ==> !BreaksOff(input)
    ensures AfterAll(cfg, s, inputs).state == TrustedSession ==>
              AfterAll(cfg, s, inputs).trace == s.trace + TrustedEvents(cfg, inputs)
    decreases |inputs|
  {
    if inputs == [] {
      assert s.trace + [] == s.trace;
    } else {
      var init, last := inputs[..|inputs| - 1], inputs[|inputs| - 1];
      assert inputs == init + [last];
      assert forall input :: input in inputs <==> input in init || input == last;
      TrustedUntilBrokenOff(cfg, s, init);
      BrokenOffStays(cfg, AfterAll(cfg, s, init), last);
      var before, events := TrustedEvents(cfg, init), if last.Incoming?
          then FrameEvents(cfg, TrustedSession, last.frame) else [];
      assert s.trace + before + events == s.trace + (before + events);
    }
  }

  /** Revoking a node closes none of its sessions. Whatever else happens, an open trusted session, unless it is paired
      anew, stays trusted and goes on handling clipboard and file frames exactly until a pairing attempt or a disconnect
      reaches it. */
  lemma RevokedSessionGoesOn(cfg: Config, n: Node, nodeId: NodeId, steps: seq<Step>, id: nat)
    requires id in n.sessions && n.sessions[id].state == TrustedSession
    requires forall input :: input in FedTo(steps, id) && input.PairWith? ==> !input.ending.Succeeded?
    ensures var sessions, fed := Run(cfg, NodeAfter(cfg, n, Revoke(nodeId)), steps).sessions, FedTo(steps, id);
            && id in sessions
            && (sessions[id].state == TrustedSession <==> forall input :: input in fed ==> !BreaksOff(input))
            && (sessions[id].state == TrustedSession ==>
                  sessions[id].trace == n.sessions[id].trace + TrustedEvents(cfg, fed))
            && DidExactly(cfg, n.sessions[id], fed, sessions[id])
  {
    OpenSessionIsItsInputs(cfg, NodeAfter(cfg, n, Revoke(nodeId)), steps, id);
    InputsHandledExactly(cfg, n.sessions[id], FedTo(steps, id));
    TrustedUntilBrokenOff(cfg, n.sessions[id], FedTo(steps, id));
  }

  /** After a successful ceremony the session is trusted, whoever the hello named. Its own remote node is trusted by
      the store exactly if it was before or the hello named it. */
  lemma PairingTrustsTheNamedNode(cfg: Config, s: PeerSession, store: TrustStore, peer: TrustedPeer)
    requires s.key == s.remote && peer.publicKey == peer.nodeId && peer.trust == TrustedState
    ensures After(cfg, s, PairWith(Succeeded(peer))).state == TrustedSession
    ensures IsTrusted(StoreAfter(store, PairWith(Succeeded(peer))), s.remote, s.key) == Ok(true) <==>
            IsTrusted(store, s.remote, s.key) == Ok(true) || peer.nodeId == s.remote
  {
  }

  /** How the session sees a party's end of the ceremony. */
  function EndingOf(p: Party): Ending {
    if p.phase.Trusted? && p.stored.Some? then Succeeded(p.stored.value)
    else if p.phase.Rejected? then RefusedHere
    else Errored
  }

  /** `p` ended the ceremony with `other`: a session that is trusted after it has both humans' consent, and trusts
      exactly `other` anew. */
  ghost predicate ConsentBehindTrust(cfg: Config, s: PeerSession, store: TrustStore, p: Party, other: NodeId,
                                     both: bool) {
    var input := PairWith(EndingOf(p));
    After(cfg, s, input).state.TrustedSession? ==>
      && both
      && IsTrusted(StoreAfter(store, input), other, other) == Ok(true)
      && StoreAfter(store, input) - {other} == store - {other}
  }

  /** Whatever happened on the wire, a session of either side is trusted after pairing only if both humans confirmed,
      and it then trusts exactly the node it paired with. */
  lemma PairedSessionHasConsent(u: PairingRuns.Setup, steps: seq<PairingRuns.Step>, cfg: Config, s: PeerSession,
                                store: TrustStore)
    requires PairingRuns.Proper(u)
    ensures var w := PairingRuns.Run(u, steps);
            var both := w.me.human == Some(true) && w.peer.human == Some(true);
            && ConsentBehindTrust(cfg, s, store, w.me, u.crypto.publicOf(u.theirs.key), both)
            && ConsentBehindTrust(cfg, s, store, w.peer, u.crypto.publicOf(u.mine.key), both)
  {
    PairingRuns.TrustNeedsBothHumans(u, steps);
  }

  // ---------- waiting for the pairing channel ----------

  predicate Stops(frame: Frame) {
    frame.Disconnect? || frame.Pair? || Garbled(frame)
  }

  /** The answers to the pings among the frames, in order. */
  function PongsOf(frames: seq<Frame>): seq<Frame> {
    if frames == [] then []
    else
      var last := frames[|frames| - 1];
      PongsOf(frames[..|frames| - 1]) + (if last.Ping? then [Pong(last.nonce)] else [])
  }

  /** `recv_data_frame`: goes on to the first frame on the pairing channel, unless a disconnect or the end of the
      stream comes before it. Every ping passed on the way is answered, in order; everything else is skipped, and the
      party `q` that waits is unmoved. */
  method RecvDataFrame(frames: seq<Frame>, from: nat, ghost c: Crypto, ghost p: Party, ghost human: Human,
                       ghost q: Party, ghost out: seq<Frame>)
    returns (stop: Option<Frame>, pos: nat, pongs: seq<Frame>)
    requires from <= |frames| && Waiting(q) && DrivesTo(c, p, human, frames, from, q, out)
    ensures from <= pos <= |frames|
    ensures stop == if pos < |frames| then Some(frames[pos]) else None
    ensures stop.Some? ==> Stops(stop.value)
    ensures forall i :: from <= i < pos ==> !Stops(frames[i])
    ensures pongs == PongsOf(frames[from..pos])
    ensures DrivesTo(c, p, human, frames, pos, q, out + pongs)
  {
    stop, pos, pongs := None, from, [];
    assert out + [] == out;
    while pos < |frames|
      invariant from <= pos <= |frames|
      invariant forall i :: from <= i < pos ==> !Stops(frames[i])
      invariant pongs == PongsOf(frames[from..pos])
      invariant DrivesTo(c, p, human, frames, pos, q, out + pongs)
    {
      var frame := frames[pos];
      if Stops(frame) {
        return Some(frame), pos, pongs;
      }
      assert frames[from..pos + 1][..pos - from] == frames[from..pos];
      DriveOne(c, p, human, frames, pos, q, out + pongs);
      pos := pos + 1;
      if frame.Ping? {
        assert out + pongs + [Pong(frame.nonce)] == out + (pongs + [Pong(frame.nonce)]);
        pongs := pongs + [Pong(frame.nonce)];
      } else {
        assert out + pongs + [] == out + pongs;
      }
    }
  }

  // ---------- the ceremony on the wire ----------

  lemma FramesOfOne(msg: PairingMessage)
    ensures Frames([msg]) == [Pair(msg)] && Frames([]) == []
  {
  }

  /** How far the greeting got. */
  datatype Greeting = Confirming | Declined | Broken

  /** The hello that this side waits for. */
  function HelloIn(initiator: bool, frame: Frame): Option<Hello> {
    if initiator && frame.Pair? && frame.msg.Response? then Some(frame.msg.hello)
    else if !initiator && frame.Pair? && frame.msg.Request? then Some(frame.msg.hello)
    else None
  }

  /** A party that has opened the ceremony. */
  function Begun(c: Crypto, initiator: bool, session: Session): Party {
    Opening(c, NewParty(initiator, session)).0
  }

  /** What the party sends on taking its hello and asking its human. */
  function GreetingFrames(c: Crypto, initiator: bool, met: Session, yes: bool): seq<Frame>
    requires met.sas.Some?
  {
    (if initiator then [] else [Pair(HelloMessage(c, false, met))]) +
    [Pair(if yes then Confirmed(Confirm(c, met).value) else Refused)]
  }

  lemma DriveHello(c: Crypto, p: Party, human: Human, frame: Frame, hello: Hello)
    requires p.phase.AwaitHello? && HelloIn(p.initiator, frame) == Some(hello)
    ensures var q, out := DriveFrame(c, p, human, frame).0, DriveFrame(c, p, human, frame).1;
            match MeetPeer(c, p.session, hello)
            case Err(_) => q.phase.Aborted? && out == []
            case Ok(met) =>
              && met.sas.Some? && q.session == met
              && q.phase == (if human(met.sas.value) then AwaitConfirm else Rejected)
              && out == GreetingFrames(c, p.initiator, met, human(met.sas.value))
  {
    var meeting := MeetPeer(c, p.session, hello);
    if meeting.Ok? {
      var met := meeting.value;
      FramesOfOne(HelloMessage(c, false, met));
      FramesOfOne(Confirmed(Confirm(c, met).value));
      FramesOfOne(Refused);
    }
  }

  lemma DriveOther(c: Crypto, p: Party, human: Human, frame: Frame)
    requires Waiting(p) && Stops(frame)
    requires if p.phase.AwaitHello? then HelloIn(p.initiator, frame) == None else !(frame.Pair? && frame.msg.Confirmed?)
    ensures DriveFrame(c, p, human, frame).0.phase.Aborted? && DriveFrame(c, p, human, frame).1 == []
  {
  }

  lemma DriveConfirmation(c: Crypto, p: Party, human: Human, conf: Confirmation)
    requires p.phase.AwaitConfirm?
    ensures var q := DriveFrame(c, p, human, Pair(Confirmed(conf)));
            && q.1 == []
            && match Finalize(c, p.session, conf)
               case Ok(peer) => q.0.phase.Trusted? && q.0.stored == Some(peer)
               case Err(_) => q.0.phase.Aborted?
  {
  }

  /** The frames of `other`, met by the initiator `mine`: its hello and its confirmation. */
  function FramesOf(c: Crypto, mine: Session, other: Session): seq<Frame> {
    [Pair(Response(HelloOf(c, other))), Pair(PairingRuns.ConfirmMessage(c, other, mine))]
  }

  /** A session may come to trust another node than its own: over the frames of any node that knows how to pair, with a
      human who confirms, it ends trusted and that node is stored, while the session's remote node, if it was not stored
      before, is still not. */
  lemma SessionMayTrustAnother(c: Crypto, mine: Session, other: Session, human: Human,
                               cfg: Config, s: PeerSession, store: TrustStore)
    requires Sound(c) && mine == NewSession(mine.key, mine.name, mine.nonce)
    requires c.publicOf(mine.key) != c.publicOf(other.key)
    requires human(PairingRuns.Met(c, mine, other).sas.value)
    requires s.remote != c.publicOf(other.key) && s.remote !in store
    ensures var p := Drive(c, Begun(c, true, mine), human, FramesOf(c, mine, other)).0;
            var input := PairWith(EndingOf(p));
            && p.phase.Trusted? && After(cfg, s, input).state == TrustedSession
            && IsTrusted(StoreAfter(store, input), c.publicOf(other.key), c.publicOf(other.key)) == Ok(true)
            && s.remote !in StoreAfter(store, input)
  {
    var p0, frames := Begun(c, true, mine), FramesOf(c, mine, other);
    PairingRuns.MetIsMeetPeer(c, mine, other);
    PairingRuns.FinalizeHonest(c, mine, other);
    DriveNone(c, p0, human, frames);
    DriveOne(c, p0, human, frames, 0, p0, []);
    DriveHello(c, p0, human, frames[0], HelloOf(c, other));
    var first := DriveFrame(c, p0, human, frames[0]);
    DriveOne(c, p0, human, frames, 1, first.0, [] + first.1);
    DriveConfirmation(c, first.0, human, frames[1].msg.confirmation);
    assert frames[..2] == frames;
  }

  /** The first half of `execute_pairing`, after the opening: wait for the hello, answer it, ask the human. */
  method Greet(pairing: PairingSession, initiator: bool, human: Human, frames: seq<Frame>)
    returns (sent: seq<Frame>, consumed: nat, greeting: Greeting, ghost q: Party)
    requires pairing.View() == NewSession(pairing.key, pairing.name, pairing.nonce)
    modifies pairing
    ensures var p := Begun(pairing.crypto, initiator, old(pairing.View()));
            && DrivesTo(pairing.crypto, p, human, frames, consumed, q, sent)
            && WaitsUpTo(pairing.crypto, p, human, frames, consumed)
    ensures match greeting
            case Confirming => q.phase.AwaitConfirm? && pairing.View() == q.session
            case Declined => q.phase.Rejected?
            case Broken => q.phase.Aborted? || (Waiting(q) && consumed == |frames|)
  {
    ghost var c, p := pairing.crypto, Begun(pairing.crypto, initiator, pairing.View());
    DriveNone(c, p, human, frames);
    var stop, pos, pongs := RecvDataFrame(frames, 0, c, p, human, p, []);
    assert [] + pongs == pongs;
    WaitsWhenDriven(c, p, human, frames, pos, p, pongs);
    if stop.None? {
      return pongs, pos, Broken, p;
    }
    DriveOne(c, p, human, frames, pos, p, pongs);
    q := DriveFrame(c, p, human, frames[pos]).0;
    sent, consumed := pongs, pos + 1;
    var hello := HelloIn(initiator, stop.value);
    if hello.None? {
      DriveOther(c, p, human, frames[pos]);
      assert pongs + [] == pongs;
      return sent, consumed, Broken, q;
    }
    DriveHello(c, p, human, frames[pos], hello.value);
    var met := pairing.ReceiveHello(hello.value);
    if met.Err? {
      assert pongs + [] == pongs;
      return sent, consumed, Broken, q;
    }
    var reply: seq<Frame> := [];
    if !initiator {
      var id := pairing.crypto.publicOf(pairing.key);
      reply := [Pair(Response(Hello(id, id, pairing.name, pairing.nonce)))];
    }
    if !human(met.value) {
      return sent + (reply + [Pair(Refused)]), consumed, Declined, q;
    }
    var confirmation := pairing.Approve();
    return sent + (reply + [Pair(Confirmed(confirmation.value))]), consumed, Confirming, q;
  }

  /** The second half: wait for the other side's confirmation and check it. */
  method Conclude(pairing: PairingSession, human: Human, frames: seq<Frame>, from: nat,
                  ghost p: Party, ghost before: Party, ghost out: seq<Frame>)
    returns (sent: seq<Frame>, consumed: nat, peer: Option<TrustedPeer>, ghost q: Party)
    requires DrivesTo(pairing.crypto, p, human, frames, from, before, out)
    requires before.phase.AwaitConfirm? && pairing.View() == before.session
    modifies pairing
    ensures DrivesTo(pairing.crypto, p, human, frames, consumed, q, out + sent)
    ensures WaitsUpTo(pairing.crypto, p, human, frames, consumed)
    ensures match peer
            case Some(record) => q.phase.Trusted? && q.stored == Some(record)
            case None => q.phase.Aborted? || (Waiting(q) && consumed == |frames|)
  {
    ghost var c := pairing.crypto;
    var stop, pos, pongs := RecvDataFrame(frames, from, c, p, human, before, out);
    WaitsWhenDriven(c, p, human, frames, pos, before, out + pongs);
    if stop.None? {
      return pongs, pos, None, before;
    }
    DriveOne(c, p, human, frames, pos, before, out + pongs);
    q := DriveFrame(c, before, human, frames[pos]).0;
    sent, consumed := pongs, pos + 1;
    assert out + pongs + [] == out + pongs;
    var frame := stop.value;
    if frame.Pair? && frame.msg.Confirmed? {
      DriveConfirmation(c, before, human, frame.msg.confirmation);
      var sealed := pairing.Seal(frame.msg.confirmation);
      return sent, consumed, if sealed.Ok? then Some(sealed.value) else None, q;
    }
    DriveOther(c, before, human, frames[pos]);
    return sent, consumed, None, q;
  }

  /** Both halves, up to the ceremony's end. */
  method Perform(pairing: PairingSession, initiator: bool, human: Human, frames: seq<Frame>)
    returns (sent: seq<Frame>, consumed: nat, ending: Ending, ghost q: Party)
    requires pairing.View() == NewSession(pairing.key, pairing.name, pairing.nonce)
    modifies pairing
    ensures var p := Begun(pairing.crypto, initiator, old(pairing.View()));
            && DrivesTo(pairing.crypto, p, human, frames, consumed, q, sent)
            && WaitsUpTo(pairing.crypto, p, human, frames, consumed)
    ensures Ended(q) || consumed == |frames|
    ensures ending == EndingOf(q) && (ending.Succeeded? <==> q.phase.Trusted?)
  {
    ghost var p := Begun(pairing.crypto, initiator, pairing.View());
    var greeting;
    sent, consumed, greeting, q := Greet(pairing, initiator, human, frames);
    match greeting
    case Broken => ending := Errored;
    case Declined => ending := RefusedHere;
    case Confirming =>
      var more, peer;
      more, consumed, peer, q := Conclude(pairing, human, frames, consumed, p, q, sent);
      sent := sent + more;
      ending := if peer.Some? then Succeeded(peer.value) else Errored;
  }

  // ---------- the object ----------

  /** The trust store that a node's sessions share. */
  class TrustDatabase {
    var peers: TrustStore

    constructor (peers: TrustStore)
      ensures this.peers == peers
    {
      this.peers := peers;
    }

    method Revoke(nodeId: NodeId)
      modifies this
      ensures peers == Revoking(old(peers), nodeId)
    {
      if nodeId in peers {
        peers := peers[nodeId := peers[nodeId].(trust := RevokedState)];
      }
    }
  }

  /** The node's own identity. */
  datatype Identity = Identity(crypto: Crypto, key: Secret, name: string)

  class ActiveSession {
    const cfg: Config
    const identity: Identity
    const remote: NodeId
    const key: Bytes
    const database: TrustDatabase
    var state: SessionState
    ghost var trace: seq<Event>

    ghost function View(): PeerSession
      reads this
    {
      PeerSession(remote, key, state, trace)
    }

    constructor (cfg: Config, identity: Identity, remote: NodeId, key: Bytes, database: TrustDatabase, trusted: bool)
      ensures this.cfg == cfg && this.identity == identity && this.database == database
      ensures View() == PeerSession(remote, key, if trusted then TrustedSession else AuthenticatedUntrusted,
                                    if trusted then [TrustEstablished] else [])
    {
      this.cfg, this.identity, this.remote, this.key, this.database := cfg, identity, remote, key, database;
      this.state := if trusted then TrustedSession else AuthenticatedUntrusted;
      this.trace := if trusted then [TrustEstablished] else [];
    }

    /** The end of `server_handshake` and `client_handshake`. */
    static method FinishHandshake(cfg: Config, identity: Identity, database: TrustDatabase, nodeId: NodeId,
                                  presented: Bytes)
      returns (r: Result<ActiveSession, TrustError>)
      ensures match Opened(database.peers, nodeId, presented)
              case Ok(s) =>
                && r.Ok? && fresh(r.value) && r.value.View() == s
                && r.value.cfg == cfg && r.value.identity == identity && r.value.database == database
              case Err(e) => r == Err(e)
    {
      var trusted := IsTrusted(database.peers, nodeId, presented);
      if trusted.Err? {
        return Err(trusted.error);
      }
      var s := new ActiveSession(cfg, identity, nodeId, presented, database, trusted.value);
      return Ok(s);
    }

    /** `execute_pairing` over the frames that arrive. The frames it consumes drive a party of the ceremony; what it
        sends is what the party sends, and the party's end decides the session and the store. It stops reading when
        the party has ended, and at the end of the stream. */
    method ExecutePairing(initiator: bool, nonce: Nonce, human: Human, frames: seq<Frame>)
      returns (sent: seq<Frame>, consumed: nat, ok: bool, ghost p: Party)
      modifies this, database
      ensures var c, mine := identity.crypto, NewSession(identity.key, identity.name, nonce);
              var hello := if initiator then [Pair(HelloMessage(c, true, mine))] else [];
              && hello <= sent && DrivesTo(c, Begun(c, initiator, mine), human, frames, consumed, p, sent[|hello|..])
              && WaitsUpTo(c, Begun(c, initiator, mine), human, frames, consumed)
      ensures Ended(p) || consumed == |frames|
      ensures ok <==> p.phase.Trusted?
      ensures View() == After(cfg, old(View()), PairWith(EndingOf(p)))
      ensures database.peers == StoreAfter(old(database.peers), PairWith(EndingOf(p)))
    {
      state := InPairing;
      trace := trace + [PairingStarted];
      var crypto := identity.crypto;
      var pairing := new PairingSession(crypto, identity.key, identity.name, nonce);
      sent := [];
      if initiator {
        var id := crypto.publicOf(identity.key);
        sent := [Pair(Request(Hello(id, id, identity.name, nonce)))];
      }
      ghost var hello := sent;
      var driven, ending;
      driven, consumed, ending, p := Perform(pairing, initiator, human, frames);
      sent := sent + driven;
      assert sent[|hello|..] == driven;
      ok := ending.Succeeded?;
      if ok {
        database.peers := database.peers[ending.peer.nodeId := ending.peer];
        state := TrustedSession;
      } else if ending.RefusedHere? {
        state := AuthenticatedUntrusted;
      }
      trace := trace + [if ok then TrustEstablished else PairingAborted];
      assert trace == old(trace) + [PairingStarted, if ok then TrustEstablished else PairingAborted];
    }

    /** `process_next_frame`: `more` is false at the end of the stream and after a disconnect. */
    method ProcessNextFrame(next: Option<Frame>) returns (more: bool, pong: Option<nat>)
      modifies this
      ensures View() == After(cfg, old(View()), if next.Some? then Incoming(next.value) else EndOfStream)
      ensures more <==> next.Some? && !next.value.Disconnect?
      ensures pong == if next.Some? && next.value.Ping? then Some(next.value.nonce) else None
    {
      more, pong := true, None;
      if next.None? {
        return false, None;
      }
      match next.value
      case Ping(nonce) =>
        pong := Some(nonce);
        trace := trace + [PongSent(nonce)];
      case Disconnect =>
        state := Terminated;
        trace := trace + [Disconnected];
        more := false;
      case Data(channel, payload) =>
        if channel == CHANNEL_CLIPBOARD {
          if state.TrustedSession? && cfg.clipboard {
            trace := trace + [ClipboardApplied(payload)];
          }
        } else if channel == CHANNEL_FILE_TRANSFER {
          if state.TrustedSession? && cfg.receiveDir {
            trace := trace + [FileHandled(payload)];
          }
        }
      case _ =>
      assert trace == old(trace) + FrameEvents(cfg, old(state), next.value);
    }
  }
}
