/** One side of the pairing ceremony (crates/bridge-identity/src/pairing.rs). */
module Pairing {
  import opened Common
  import opened ShortAuth

  type Secret = Bytes

  /** SHA-256 and Ed25519, as functions. A node's identity is its public key. */
  datatype Crypto = Crypto(
    sha: Bytes -> Digest,
    publicOf: Secret -> NodeId,
    validKey: Bytes -> bool,
    sign: (Secret, Bytes) -> Bytes,
    verify: (Bytes, Bytes, Bytes) -> bool)

  /** Verification accepts what signing produced (sections 5.1.6 and 5.1.7 of RFC 8032). */
  ghost predicate Sound(c: Crypto) {
    && (forall sk: Secret :: c.validKey(c.publicOf(sk)))
    && (forall sk: Secret, m: Bytes :: |c.sign(sk, m)| == 64)
    && (forall sk: Secret, m: Bytes :: c.verify(c.publicOf(sk), m, c.sign(sk, m)))
  }

  datatype TrustState = TrustedState | PendingState | RevokedState

  datatype TrustedPeer = TrustedPeer(nodeId: NodeId, publicKey: NodeId, name: string, trust: TrustState)

  /** The body shared by a pairing request and a pairing response. */
  datatype Hello = Hello(nodeId: NodeId, publicKey: NodeId, name: string, nonce: Nonce)

  datatype Confirmation = Confirmation(nodeId: NodeId, confirmed: bool, signature: Bytes)

  /** The pairing messages on the wire (crates/bridge-session/src/pairing_flow.rs). */
  datatype PairingMessage =
    | Request(hello: Hello)
    | Response(hello: Hello)
    | Confirmed(confirmation: Confirmation)
    | Refused

  datatype PairingError = KeyMismatch | PairingFailed | CryptoFailure

  /** One side's ceremony: its own key and nonce, and what it has learnt about the other side. */
  datatype Session = Session(
    key: Secret, name: string, nonce: Nonce,
    remote: Option<TrustedPeer>, remoteNonce: Option<Nonce>, sas: Option<Sas>)

  function NewSession(key: Secret, name: string, nonce: Nonce): Session {
    Session(key, name, nonce, None, None, None)
  }

  function HelloOf(c: Crypto, s: Session): Hello {
    Hello(c.publicOf(s.key), c.publicOf(s.key), s.name, s.nonce)
  }

  /** Taking in the other side's hello: `new_responder` and `initiator_receive_response`. */
  function MeetPeer(c: Crypto, s: Session, hello: Hello): Result<Session, PairingError> {
    if !c.validKey(hello.publicKey) then Err(CryptoFailure)
    else if hello.publicKey != hello.nodeId then Err(KeyMismatch)
    else Ok(s.(remote := Some(TrustedPeer(hello.nodeId, hello.publicKey, hello.name, PendingState)),
               remoteNonce := Some(hello.nonce),
               sas := Some(Derive(c.sha, c.publicOf(s.key), hello.nodeId, s.nonce, hello.nonce))))
  }

  /** What `compute_confirmation_hash` hashes; without a remote side only the own nonce goes in. */
  function CommitmentInput(c: Crypto, s: Session): Bytes
    requires s.sas.Some?
  {
    if s.remote.Some? && s.remoteNonce.Some?
    then CommitInput(s.sas.value.formatted, c.publicOf(s.key), s.remote.value.nodeId, s.nonce, s.remoteNonce.value)
    else Ascii("BridgeOS-Pairing-Confirm-v1") + Ascii(s.sas.value.formatted) + s.nonce
  }

  function CommitmentOf(c: Crypto, s: Session): Digest
    requires s.sas.Some?
  {
    c.sha(CommitmentInput(c, s))
  }

  function Confirm(c: Crypto, s: Session): Result<Confirmation, PairingError> {
    if s.sas.None? then Err(PairingFailed)
    else Ok(Confirmation(c.publicOf(s.key), true, c.sign(s.key, CommitmentOf(c, s))))
  }

  /** The checks of `finalize`, in order. */
  function FinalizeError(c: Crypto, s: Session, conf: Confirmation): Option<PairingError> {
    if !conf.confirmed || s.sas.None? || s.remote.None? then Some(PairingFailed)
    else if conf.nodeId != s.remote.value.nodeId then Some(KeyMismatch)
    else if |conf.signature| != 64 then Some(CryptoFailure)
    else if !c.verify(s.remote.value.publicKey, CommitmentOf(c, s), conf.signature) then Some(CryptoFailure)
    else None
  }

  function Finalize(c: Crypto, s: Session, conf: Confirmation): Result<TrustedPeer, PairingError> {
    match FinalizeError(c, s, conf)
    case Some(e) => Err(e)
    case None => Ok(s.remote.value.(trust := TrustedState))
  }

  /** Both pairing checks refuse for a reason that is true: a hello for a key that is none or is not the node's, a
      confirmation for a refusal or a ceremony not that far, another node, or a signature that is not one. */
  lemma RefusedForTrueReason(c: Crypto, s: Session, hello: Hello, conf: Confirmation)
    ensures match MeetPeer(c, s, hello)
            case Ok(_) => c.validKey(hello.publicKey) && hello.publicKey == hello.nodeId
            case Err(CryptoFailure) => !c.validKey(hello.publicKey)
            case Err(KeyMismatch) => hello.publicKey != hello.nodeId
            case Err(PairingFailed) => false
    ensures match Finalize(c, s, conf)
            case Ok(_) => conf.confirmed && s.remote.Some? && conf.nodeId == s.remote.value.nodeId
            case Err(PairingFailed) => !conf.confirmed || s.sas.None? || s.remote.None?
            case Err(KeyMismatch) => s.remote.Some? && conf.nodeId != s.remote.value.nodeId
            case Err(CryptoFailure) =>
              && s.sas.Some? && s.remote.Some?
              && (|conf.signature| == 64 ==>
                    !c.verify(s.remote.value.publicKey, CommitmentOf(c, s), conf.signature))
    ensures Confirm(c, s).Err? <==> s.sas.None?
    ensures s.sas.None? ==> Confirm(c, s) == Err(PairingFailed)
  {
  }

  /** A side commits to the digits, the nonce of the lower node id and that of the higher; before it knows the other
      side, to its own nonce alone. */
  lemma SessionCommits(c: Crypto, s: Session)
    requires s.sas.Some?
    ensures var id, start := c.publicOf(s.key), Ascii("BridgeOS-Pairing-Confirm-v1") + Ascii(s.sas.value.formatted);
            if s.remote.None? || s.remoteNonce.None? then CommitmentOf(c, s) == c.sha(start + s.nonce)
            else if Precedes(s.remote.value.nodeId, id)
            then CommitmentOf(c, s) == c.sha(start + s.remoteNonce.value + s.nonce)
            else CommitmentOf(c, s) == c.sha(start + s.nonce + s.remoteNonce.value)
  {
    if s.remote.Some? && s.remoteNonce.Some? {
      var id, other := c.publicOf(s.key), s.remote.value.nodeId;
      var start := Ascii("BridgeOS-Pairing-Confirm-v1") + Ascii(s.sas.value.formatted);
      AtMostIsLexicographic(other, id);
      if id == other {
        AtMostTotal(id, id);
        NeverBeforeItself(id);
      } else {
        DistinctOrder(id, other);
      }
      assert start + (s.nonce + s.remoteNonce.value) == start + s.nonce + s.remoteNonce.value;
      assert start + (s.remoteNonce.value + s.nonce) == start + s.remoteNonce.value + s.nonce;
    }
  }

  /** A session that has a SAS and the node `id`, under its own key, as its remote side. */
  predicate HoldsAsRemote(s: Session, id: NodeId) {
    s.sas.Some? && s.remote.Some? && s.remote.value.nodeId == id && s.remote.value.publicKey == id
  }

  /** Two honest sides that met each other see the same SAS, and each accepts the other's confirmation. */
  lemma HonestSidesFinalize(c: Crypto, a: Session, b: Session)
    requires Sound(c) && c.publicOf(a.key) != c.publicOf(b.key)
    ensures var a' := MeetPeer(c, a, HelloOf(c, b)); var b' := MeetPeer(c, b, HelloOf(c, a));
            && a'.Ok? && b'.Ok? && a'.value.sas == b'.value.sas && a'.value.sas.Some?
            && Confirm(c, b'.value).Ok?
            && Finalize(c, a'.value, Confirm(c, b'.value).value) ==
               Ok(TrustedPeer(c.publicOf(b.key), c.publicOf(b.key), b.name, TrustedState))
  {
    BothSidesAgree(c.sha, c.publicOf(a.key), c.publicOf(b.key), a.nonce, b.nonce);
    var a', b' := MeetPeer(c, a, HelloOf(c, b)).value, MeetPeer(c, b, HelloOf(c, a)).value;
    assert CommitmentOf(c, a') == CommitmentOf(c, b');
  }

  class PairingSession {
    const crypto: Crypto
    const key: Secret
    const name: string
    const nonce: Nonce
    var remote: Option<TrustedPeer>
    var remoteNonce: Option<Nonce>
    var sas: Option<Sas>

    ghost function View(): Session
      reads this
    {
      Session(key, name, nonce, remote, remoteNonce, sas)
    }

    constructor (crypto: Crypto, key: Secret, name: string, nonce: Nonce)
      ensures this.crypto == crypto && View() == NewSession(key, name, nonce)
    {
      this.crypto, this.key, this.name, this.nonce := crypto, key, name, nonce;
      remote, remoteNonce, sas := None, None, None;
    }

    /** `initiator_receive_response`, and the body of `new_responder`. */
    method ReceiveHello(hello: Hello) returns (r: Result<Sas, PairingError>)
      modifies this
      ensures match MeetPeer(crypto, old(View()), hello)
              case Ok(s) => View() == s && s.sas.Some? && r == Ok(s.sas.value)
              case Err(e) => View() == old(View()) && r == Err(e)
    {
      if !crypto.validKey(hello.publicKey) {
        return Err(CryptoFailure);
      }
      if hello.publicKey != hello.nodeId {
        return Err(KeyMismatch);
      }
      var derived := Derive(crypto.sha, crypto.publicOf(key), hello.nodeId, nonce, hello.nonce);
      remote := Some(TrustedPeer(hello.nodeId, hello.publicKey, hello.name, PendingState));
      remoteNonce := Some(hello.nonce);
      sas := Some(derived);
      return Ok(derived);
    }

    /** `confirm`: there is a confirmation exactly if there is a SAS to confirm. Its signature is good for the
        commitment, and any session that holds this side as its remote and has the same commitment accepts it. */
    method Approve() returns (r: Result<Confirmation, PairingError>)
      ensures r.Ok? <==> sas.Some?
      ensures Sound(crypto) && r.Ok? ==>
                crypto.verify(crypto.publicOf(key), CommitmentOf(crypto, View()), r.value.signature)
      ensures Sound(crypto) && r.Ok? ==>
                forall t: Session ::
                  HoldsAsRemote(t, crypto.publicOf(key)) && CommitmentOf(crypto, t) == CommitmentOf(crypto, View()) ==>
                    Finalize(crypto, t, r.value) == Ok(t.remote.value.(trust := TrustedState))
      ensures r == Confirm(crypto, View())
    {
      if sas.None? {
        return Err(PairingFailed);
      }
      var commitment := CommitmentOf(crypto, Session(key, name, nonce, remote, remoteNonce, sas));
      return Ok(Confirmation(crypto.publicOf(key), true, crypto.sign(key, commitment)));
    }

    /** `finalize`: the peer becomes trusted exactly if every check passes, and otherwise nothing changes. */
    method Seal(conf: Confirmation) returns (r: Result<TrustedPeer, PairingError>)
      modifies this
      ensures r == Finalize(crypto, old(View()), conf)
      ensures r.Ok? ==> View() == old(View()).(remote := Some(r.value)) && r.value.trust == TrustedState
      ensures r.Err? ==> View() == old(View())
    {
      if !conf.confirmed || sas.None? || remote.None? {
        return Err(PairingFailed);
      }
      var commitment := CommitmentOf(crypto, Session(key, name, nonce, remote, remoteNonce, sas));
      var peer := remote.value;
      if conf.nodeId != peer.nodeId {
        return Err(KeyMismatch);
      }
      if |conf.signature| != 64 || !crypto.verify(peer.publicKey, commitment, conf.signature) {
        return Err(CryptoFailure);
      }
      peer := peer.(trust := TrustedState);
      remote := Some(peer);
      return Ok(peer);
    }
  }
}
