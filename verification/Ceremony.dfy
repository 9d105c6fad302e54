/**
 One party of the pairing ceremony as a state machine over the frames it receives
 (crates/bridge-session/src/session.rs, `execute_pairing` and `recv_data_frame`).
 */
module Ceremonies {
  import opened Common
  import opened ShortAuth
  import opened Pairing

  const CHANNEL_CLIPBOARD: nat := 1
  const CHANNEL_FILE_TRANSFER: nat := 2
  const CHANNEL_PAIRING: nat := 5

  /** A frame as its receiver reads it. `Pair` is a data frame on the pairing channel whose payload decodes; one whose
      payload does not decode is `Data` on that channel. */
  datatype Frame =
    | Ping(nonce: nat)
    | Pong(nonce: nat)
    | Disconnect
    | Pair(msg: PairingMessage)
    | Data(channel: nat, payload: Bytes)
    | Handshake

  predicate Garbled(f: Frame) {
    f.Data? && f.channel == CHANNEL_PAIRING
  }

  /** Where a party stands in `execute_pairing`. `Aborted` is any error return. */
  datatype Phase = Start | AwaitHello | Ask | AwaitConfirm | Trusted | Rejected | Aborted

  datatype Party = Party(
    initiator: bool,
    session: Session,
    phase: Phase,
    /** The human's answer, once given. */
    human: Option<bool>,
    /** The record saved to the trust store. */
    stored: Option<TrustedPeer>,
    /** Pairing messages sent, and how many of the peer's have been taken. */
    sent: seq<PairingMessage>,
    got: nat)

  function NewParty(initiator: bool, session: Session): Party {
    Party(initiator, session, if initiator then Start else AwaitHello, None, None, [], 0)
  }

  predicate Waiting(p: Party) {
    p.phase.AwaitHello? || p.phase.AwaitConfirm?
  }

  predicate Ended(p: Party) {
    p.phase.Trusted? || p.phase.Rejected? || p.phase.Aborted?
  }

  function HelloMessage(c: Crypto, initiator: bool, s: Session): PairingMessage {
    if initiator then Request(HelloOf(c, s)) else Response(HelloOf(c, s))
  }

  /** The initiator opens with its hello. */
  function Opening(c: Crypto, p: Party): (Party, seq<PairingMessage>) {
    if !p.phase.Start? then (p, [])
    else
      var hello := HelloMessage(c, true, p.session);
      (p.(phase := AwaitHello, sent := p.sent + [hello]), [hello])
  }

  /** A pairing message arrives at a waiting party: its new state and what it sends. */
  function TakeMessage(c: Crypto, p: Party, msg: PairingMessage): (Party, seq<PairingMessage>) {
    var q := p.(got := p.got + 1);
    var aborted := (q.(phase := Aborted), []);
    if p.phase.AwaitHello? then
      if (p.initiator && msg.Response?) || (!p.initiator && msg.Request?) then
        match MeetPeer(c, p.session, msg.hello)
        case Ok(s) =>
          var reply := if p.initiator then [] else [HelloMessage(c, false, s)];
          (q.(session := s, phase := Ask, sent := p.sent + reply), reply)
        case Err(_) => aborted
      else aborted
    else if p.phase.AwaitConfirm? && msg.Confirmed? then
      match Finalize(c, p.session, msg.confirmation)
      case Ok(peer) => (q.(session := p.session.(remote := Some(peer)), phase := Trusted, stored := Some(peer)), [])
      case Err(_) => aborted
    else aborted
  }

  /** The answer of the human at a party that asks. */
  function Answer(c: Crypto, p: Party, yes: bool): (Party, seq<PairingMessage>) {
    if yes then
      match Confirm(c, p.session)
      case Ok(conf) =>
        (p.(phase := AwaitConfirm, human := Some(true), sent := p.sent + [Confirmed(conf)]), [Confirmed(conf)])
      case Err(_) => (p.(phase := Aborted, human := Some(true)), [])
    else (p.(phase := Rejected, human := Some(false), sent := p.sent + [Refused]), [Refused])
  }

  function Frames(msgs: seq<PairingMessage>): seq<Frame> {
    if msgs == [] then [] else [Pair(msgs[0])] + Frames(msgs[1..])
  }

  /** Any frame arrives at a waiting party: pairing messages are taken, pings answered, the rest skipped. */
  function TakeFrame(c: Crypto, p: Party, frame: Frame): (Party, seq<Frame>) {
    match frame
    case Pair(msg) =>
      var taken := TakeMessage(c, p, msg);
      (taken.0, Frames(taken.1))
    case Ping(nonce) => (p, [Pong(nonce)])
    case Disconnect => (p.(phase := Aborted), [])
    case Data(channel, _) => if channel == CHANNEL_PAIRING then (p.(phase := Aborted), []) else (p, [])
    case _ => (p, [])
  }

  // ---------- a party that asks its human at once ----------

  /** The human, who answers as soon as the SAS is shown. */
  type Human = Sas -> bool

  function DriveFrame(c: Crypto, p: Party, human: Human, frame: Frame): (Party, seq<Frame>) {
    if !Waiting(p) then (p, [])
    else
      var taken := TakeFrame(c, p, frame);
      if taken.0.phase.Ask? && taken.0.session.sas.Some? then
        var answered := Answer(c, taken.0, human(taken.0.session.sas.value));
        (answered.0, taken.1 + Frames(answered.1))
      else taken
  }

  /** The party after the frames, and what it sent. */
  function Drive(c: Crypto, p: Party, human: Human, frames: seq<Frame>): (Party, seq<Frame>)
    decreases |frames|
  {
    if frames == [] then (p, [])
    else
      var before := Drive(c, p, human, frames[..|frames| - 1]);
      var last := DriveFrame(c, before.0, human, frames[|frames| - 1]);
      (last.0, before.1 + last.1)
  }

  /** Driving over the first `n` frames leads to `q`, having sent `out`. */
  ghost predicate DrivesTo(c: Crypto, p: Party, human: Human, frames: seq<Frame>, n: nat, q: Party, out: seq<Frame>) {
    n <= |frames| && Drive(c, p, human, frames[..n]) == (q, out)
  }

  lemma DriveNone(c: Crypto, p: Party, human: Human, frames: seq<Frame>)
    ensures DrivesTo(c, p, human, frames, 0, p, [])
  {
  }

  lemma DriveOne(c: Crypto, p: Party, human: Human, frames: seq<Frame>, n: nat, q: Party, out: seq<Frame>)
    requires DrivesTo(c, p, human, frames, n, q, out) && n < |frames|
    ensures var next := DriveFrame(c, q, human, frames[n]);
            DrivesTo(c, p, human, frames, n + 1, next.0, out + next.1)
  {
    assert frames[..n + 1][..n] == frames[..n];
  }

  /** The party waits for a frame before the last of the first `n`, and so before each of them. */
  ghost predicate WaitsUpTo(c: Crypto, p: Party, human: Human, frames: seq<Frame>, n: nat) {
    n <= |frames| && (n == 0 || Waiting(Drive(c, p, human, frames[..n - 1]).0))
  }

  lemma WaitedBefore(c: Crypto, p: Party, human: Human, frames: seq<Frame>, n: nat)
    requires n > 0 && WaitsUpTo(c, p, human, frames, n)
    ensures WaitsUpTo(c, p, human, frames, n - 1)
  {
    if n > 1 {
      assert frames[..n - 1][..n - 2] == frames[..n - 2];
    }
  }

  lemma WaitsWhenDriven(c: Crypto, p: Party, human: Human, frames: seq<Frame>, n: nat, q: Party, out: seq<Frame>)
    requires DrivesTo(c, p, human, frames, n, q, out) && Waiting(q)
    ensures WaitsUpTo(c, p, human, frames, n)
    ensures n < |frames| ==> WaitsUpTo(c, p, human, frames, n + 1)
  {
    if n > 0 {
      assert frames[..n][..n - 1] == frames[..n - 1];
    }
  }
}
