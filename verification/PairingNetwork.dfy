/**
 Pairing over a network that delivers anything: any number of parties, each taking whatever pairing messages arrive
 (crates/bridge-session/src/session.rs, crates/bridge-identity/src/pairing.rs, crates/bridge-identity/src/keys.rs).

 What keys have signed is recorded in a ledger. An entry gets there only when a party's human confirms a SAS or when
 the node answers a handshake challenge. The one thing assumed of signatures is about the single check a party makes:
 if a delivered signature verifies under the key of another party for the receiver's own commitment, that key has
 signed it. There may be many such signatures, they may verify for other messages too, and keys of others may sign
 anything.
 */
module PairingNetwork {
  import opened Common
  import opened ShortAuth
  import opened Pairing
  import opened Ceremonies

  datatype Net = Net(parties: map<nat, Party>, ledger: set<(Bytes, Bytes)>)

  datatype Step =
    | Open(id: nat)
    | Deliver(id: nat, msg: PairingMessage)
    | Decide(id: nat, yes: bool)
    | Challenge(id: nat, clientNonce: Nonce, serverNonce: Nonce)
    | Fail(id: nat)

  /** What `sign_handshake_challenge` hashes. */
  function HandshakeInput(clientNonce: Nonce, serverNonce: Nonce): Bytes {
    Ascii("BridgeOS-Handshake-v1") + clientNonce + serverNonce
  }

  /** The node identity, and public key, of a party. */
  function IdOf(c: Crypto, p: Party): NodeId {
    c.publicOf(p.session.key)
  }

  ghost predicate IsParty(c: Crypto, net: Net, key: Bytes) {
    exists id :: id in net.parties && IdOf(c, net.parties[id]) == key
  }

  /** If the signature verifies under the key of the party that `p` has met for the commitment of `p`, that key has
      signed it. */
  ghost predicate Genuine(c: Crypto, net: Net, p: Session, signature: Bytes) {
    p.sas.Some? && p.remote.Some? ==>
      var key, m := p.remote.value.publicKey, CommitmentOf(c, p);
      IsParty(c, net, key) && c.verify(key, m, signature) ==> (key, m) in net.ledger
  }

  ghost predicate Enabled(c: Crypto, net: Net, step: Step) {
    && step.id in net.parties
    && match step
       case Open(id) => net.parties[id].phase.Start?
       case Deliver(id, msg) =>
         && Waiting(net.parties[id])
         && (msg.Confirmed? ==> Genuine(c, net, net.parties[id].session, msg.confirmation.signature))
       case Decide(id, _) => net.parties[id].phase.Ask?
       case Challenge(_, _, _) => true
       case Fail(id) => !Ended(net.parties[id])
  }

  function PartyAfter(c: Crypto, p: Party, step: Step): Party {
    match step
    case Open(_) => Opening(c, p).0
    case Deliver(_, msg) => TakeMessage(c, p, msg).0
    case Decide(_, yes) => Answer(c, p, yes).0
    case Challenge(_, _, _) => p
    case Fail(_) => p.(phase := Aborted)
  }

  /** What the step signs with the party's key. */
  function Signed(c: Crypto, p: Party, step: Step): set<(Bytes, Bytes)> {
    match step
    case Decide(_, true) => if p.session.sas.Some? then {(IdOf(c, p), CommitmentOf(c, p.session))} else {}
    case Challenge(_, clientNonce, serverNonce) => {(IdOf(c, p), c.sha(HandshakeInput(clientNonce, serverNonce)))}
    case _ => {}
  }

  function After(c: Crypto, net: Net, step: Step): Net {
    if step.id !in net.parties then net
    else
      var p := net.parties[step.id];
      Net(net.parties[step.id := PartyAfter(c, p, step)], net.ledger + Signed(c, p, step))
  }

  function Run(c: Crypto, net: Net, steps: seq<Step>): Net
    decreases |steps|
  {
    if steps == [] then net else After(c, Run(c, net, steps[..|steps| - 1]), steps[|steps| - 1])
  }

  ghost predicate Legal(c: Crypto, net: Net, steps: seq<Step>)
    decreases |steps|
  {
    steps == [] ||
    (Legal(c, net, steps[..|steps| - 1]) && Enabled(c, Run(c, net, steps[..|steps| - 1]), steps[|steps| - 1]))
  }

  /** Every party is about to begin, and nothing has been signed. */
  ghost predicate Initial(net: Net) {
    && net.ledger == {}
    && forall id :: id in net.parties ==>
         var p := net.parties[id];
         p == NewParty(p.initiator, NewSession(p.session.key, p.session.name, p.session.nonce))
  }

  // ---------- one party against anything ----------

  /** The party's human confirmed, with this commitment. */
  predicate Committed(c: Crypto, p: Party, m: Bytes) {
    p.human == Some(true) && p.session.sas.Some? && CommitmentOf(c, p.session) == m
  }

  /** A session that shows the SAS derived from whom it met. */
  predicate Shows(c: Crypto, s: Session) {
    && s.remote.Some? && s.remoteNonce.Some? && s.sas.Some?
    && s.sas.value == Derive(c.sha, c.publicOf(s.key), s.remote.value.nodeId, s.nonce, s.remoteNonce.value)
  }

  /** Before it asks, a party has no answer; once it asks, it has met someone who showed a key that is its node id; it
      waits for a confirmation only after its human has confirmed. */
  predicate PartyOk(c: Crypto, p: Party) {
    && (p.phase.Start? || p.phase.AwaitHello? || p.phase.Ask? ==> p.human == None)
    && (p.phase.Ask? || p.phase.AwaitConfirm? || p.phase.Trusted? ==>
          p.session.remote.Some? && HoldsAsRemote(p.session, p.session.remote.value.nodeId))
    && (p.phase.AwaitConfirm? || p.phase.Trusted? ==> p.human == Some(true))
    && (p.stored.Some? <==> p.phase.Trusted?)
    && (p.phase.Trusted? ==> p.stored == p.session.remote)
    && (p.session.sas.Some? ==> Shows(c, p.session))
  }

  lemma TakingKeepsParty(c: Crypto, p: Party, msg: PairingMessage)
    requires Waiting(p) && PartyOk(c, p)
    ensures var p' := TakeMessage(c, p, msg).0;
            && PartyOk(c, p') && p'.session.key == p.session.key
            && (p.human.Some? ==> p'.human == p.human && p'.session.sas == p.session.sas
                                  && (p.session.sas.Some? ==>
                                      CommitmentOf(c, p'.session) == CommitmentOf(c, p.session)))
  {
  }

  lemma AnsweringKeepsParty(c: Crypto, p: Party, yes: bool)
    requires p.phase.Ask? && PartyOk(c, p)
    ensures var p' := Answer(c, p, yes).0;
            && PartyOk(c, p') && p'.session == p.session && p'.human == Some(yes)
  {
  }

  lemma PartyStep(c: Crypto, net: Net, step: Step)
    requires Enabled(c, net, step) && PartyOk(c, net.parties[step.id])
    ensures var p := net.parties[step.id]; var p' := PartyAfter(c, p, step);
            && PartyOk(c, p') && p'.session.key == p.session.key
            && (forall m: Bytes :: Committed(c, p, m) ==> Committed(c, p', m))
            && (forall m: Bytes :: (IdOf(c, p), m) in Signed(c, p, step) && step.Decide? ==> Committed(c, p', m))
  {
    var p := net.parties[step.id];
    match step
    case Deliver(_, msg) => TakingKeepsParty(c, p, msg);
    case Decide(_, yes) => AnsweringKeepsParty(c, p, yes);
    case _ =>
  }

  /** Becoming trusted takes a signature that verifies under the stored key for this party's own commitment. */
  lemma TrustingStep(c: Crypto, net: Net, step: Step)
    requires Enabled(c, net, step) && PartyOk(c, net.parties[step.id]) && !net.parties[step.id].phase.Trusted?
    requires PartyAfter(c, net.parties[step.id], step).phase.Trusted?
    ensures var p' := PartyAfter(c, net.parties[step.id], step);
            && p'.session.sas.Some? && p'.stored.Some? && step.Deliver? && step.msg.Confirmed?
            && c.verify(p'.stored.value.publicKey, CommitmentOf(c, p'.session), step.msg.confirmation.signature)
  {
  }

  // ---------- the ledger ----------

  ghost predicate CommittedBy(c: Crypto, net: Net, id: nat, key: Bytes, m: Bytes) {
    id in net.parties && IdOf(c, net.parties[id]) == key && Committed(c, net.parties[id], m)
  }

  /** Some party with this key has a human who confirmed this commitment. */
  ghost predicate SomeoneCommitted(c: Crypto, net: Net, key: Bytes, m: Bytes) {
    exists id: nat :: CommittedBy(c, net, id, key, m)
  }

  ghost predicate IsChallenge(c: Crypto, m: Bytes) {
    exists a: Nonce, b: Nonce :: m == c.sha(HandshakeInput(a, b))
  }

  ghost predicate LedgerOk(c: Crypto, net: Net) {
    forall key: Bytes, m: Bytes :: (key, m) in net.ledger ==> SomeoneCommitted(c, net, key, m) || IsChallenge(c, m)
  }

  ghost predicate PartiesOk(c: Crypto, net: Net) {
    forall id :: id in net.parties ==> PartyOk(c, net.parties[id])
  }

  /** Whoever has stored the key of a party has it because that key signed this party's commitment. */
  ghost predicate StoredOk(c: Crypto, net: Net, p: Party) {
    p.phase.Trusted? && p.session.sas.Some? && p.stored.Some? && IsParty(c, net, p.stored.value.publicKey) ==>
      (p.stored.value.publicKey, CommitmentOf(c, p.session)) in net.ledger
  }

  ghost predicate StoresOk(c: Crypto, net: Net) {
    forall id :: id in net.parties ==> StoredOk(c, net, net.parties[id])
  }

  lemma SameParties(c: Crypto, net: Net, step: Step, key: Bytes)
    requires Enabled(c, net, step) && PartiesOk(c, net)
    ensures IsParty(c, After(c, net, step), key) <==> IsParty(c, net, key)
  {
    var net' := After(c, net, step);
    PartyStep(c, net, step);
    assert forall id :: id in net.parties <==> id in net'.parties;
    assert forall id :: id in net.parties ==> IdOf(c, net'.parties[id]) == IdOf(c, net.parties[id]);
  }

  lemma StepKeepsParties(c: Crypto, net: Net, step: Step)
    requires Enabled(c, net, step) && PartiesOk(c, net)
    ensures PartiesOk(c, After(c, net, step))
  {
    PartyStep(c, net, step);
  }

  lemma StepKeepsLedger(c: Crypto, net: Net, step: Step)
    requires Enabled(c, net, step) && PartiesOk(c, net) && LedgerOk(c, net)
    ensures LedgerOk(c, After(c, net, step))
  {
    var net', p := After(c, net, step), net.parties[step.id];
    PartyStep(c, net, step);
    forall key: Bytes, m: Bytes | (key, m) in net'.ledger
      ensures SomeoneCommitted(c, net', key, m) || IsChallenge(c, m)
    {
      if (key, m) in net.ledger {
        if SomeoneCommitted(c, net, key, m) {
          var id: nat :| CommittedBy(c, net, id, key, m);
          assert CommittedBy(c, net', id, key, m);
        }
      } else if step.Decide? {
        assert CommittedBy(c, net', step.id, key, m);
      }
    }
  }

  lemma StepKeepsStores(c: Crypto, net: Net, step: Step)
    requires Enabled(c, net, step) && PartiesOk(c, net) && StoresOk(c, net)
    ensures StoresOk(c, After(c, net, step))
  {
    var net' := After(c, net, step);
    forall id | id in net'.parties ensures StoredOk(c, net', net'.parties[id]) {
      var p := net'.parties[id];
      assert StoredOk(c, net, net.parties[id]);
      if p.stored.Some? {
        SameParties(c, net, step, p.stored.value.publicKey);
      }
      if id == step.id && p.phase.Trusted? && !net.parties[id].phase.Trusted? {
        TrustingStep(c, net, step);
      }
    }
  }

  lemma {:induction false} RunKeeps(c: Crypto, net: Net, steps: seq<Step>)
    requires Initial(net) && Legal(c, net, steps)
    ensures var net' := Run(c, net, steps);
            PartiesOk(c, net') && LedgerOk(c, net') && StoresOk(c, net')
    decreases |steps|
  {
    if steps == [] {
    } else {
      var before, step := Run(c, net, steps[..|steps| - 1]), steps[|steps| - 1];
      RunKeeps(c, net, steps[..|steps| - 1]);
      StepKeepsParties(c, before, step);
      StepKeepsLedger(c, before, step);
      StepKeepsStores(c, before, step);
    }
  }

  // ---------- main result ----------

  ghost predicate Collide(c: Crypto, a: Bytes, b: Bytes) {
    a != b && c.sha(a) == c.sha(b)
  }

  lemma TagsDiffer(c: Crypto, s: Session, a: Nonce, b: Nonce)
    requires s.sas.Some?
    ensures CommitmentInput(c, s) != HandshakeInput(a, b)
  {
    assert CommitmentInput(c, s)[9] == Ascii("BridgeOS-Pairing-Confirm-v1")[9] == 'P' as int;
    assert HandshakeInput(a, b)[9] == Ascii("BridgeOS-Handshake-v1")[9] == 'H' as int;
  }

  lemma ThreeDigitsAreAscii(n: nat)
    requires n < 1000
    ensures |ThreeDigits(n)| == 3 && forall i :: 0 <= i < 3 ==> ThreeDigits(n)[i] <= '9'
  {
    forall d: nat | d < 10 ensures DigitChar(d) <= '9' {
    }
  }

  lemma JoinedIsAscii(a: string, b: string)
    requires |a| == |b| == 3 && forall i :: 0 <= i < 3 ==> a[i] <= '9' && b[i] <= '9'
    ensures forall i :: 0 <= i < 7 ==> Ascii(a + "-" + b)[i] == (a + "-" + b)[i] as int
  {
    var s := a + "-" + b;
    forall i | 0 <= i < 7 ensures s[i] <= '9' {
      assert s[i] == if i < 3 then a[i] else if i == 3 then '-' else b[i - 4];
    }
  }

  lemma PinIsAscii(pin: nat)
    requires pin < PIN_COUNT
    ensures |FormatPin(pin)| == 7
    ensures forall i :: 0 <= i < 7 ==> Ascii(FormatPin(pin))[i] == FormatPin(pin)[i] as int
  {
    ThreeDigitsAreAscii(pin / 1000);
    ThreeDigitsAreAscii(pin % 1000);
    JoinedIsAscii(ThreeDigits(pin / 1000), ThreeDigits(pin % 1000));
  }

  lemma DisplayIsAscii(c: Crypto, s: Session)
    requires Shows(c, s)
    ensures |s.sas.value.formatted| == 7
    ensures forall i :: 0 <= i < 7 ==> Ascii(s.sas.value.formatted)[i] == s.sas.value.formatted[i] as int
  {
    PinIsAscii(s.sas.value.pin);
  }

  /** The two nonces of a ceremony, that of the lower node id first. */
  function NoncesOf(c: Crypto, s: Session): (Nonce, Nonce)
    requires s.remote.Some? && s.remoteNonce.Some?
  {
    if AtMost(c.publicOf(s.key), s.remote.value.nodeId) then (s.nonce, s.remoteNonce.value)
    else (s.remoteNonce.value, s.nonce)
  }

  lemma CommitmentLayout(c: Crypto, s: Session)
    requires Shows(c, s)
    ensures var x, n := CommitmentInput(c, s), |Ascii("BridgeOS-Pairing-Confirm-v1")|;
            && |x| == n + 71
            && (forall i :: 0 <= i < 7 ==> x[n + i] == s.sas.value.formatted[i] as int)
            && x[n + 7..n + 39] == NoncesOf(c, s).0 && x[n + 39..] == NoncesOf(c, s).1
  {
    DisplayIsAscii(c, s);
  }

  /** Two sessions that hash the same bytes into their commitments show the same number and have the same nonces. */
  lemma SameInputSameCeremony(c: Crypto, p: Session, q: Session)
    requires Shows(c, p) && Shows(c, q) && CommitmentInput(c, p) == CommitmentInput(c, q)
    ensures p.sas.value.formatted == q.sas.value.formatted && NoncesOf(c, p) == NoncesOf(c, q)
  {
    var x, n := CommitmentInput(c, p), |Ascii("BridgeOS-Pairing-Confirm-v1")|;
    CommitmentLayout(c, p);
    CommitmentLayout(c, q);
    forall i | 0 <= i < 7 ensures p.sas.value.formatted[i] == q.sas.value.formatted[i] {
      assert x[n + i] == p.sas.value.formatted[i] as int;
    }
  }

  /** Party `q` has the key `key` and a human who confirmed the commitment of `p`. Unless two commitments collide, that
      human was shown the number that the human of `p` was shown, in a ceremony with the same two nonces. */
  ghost predicate Agreed(c: Crypto, net: Net, q: nat, key: Bytes, p: Session)
    requires Shows(c, p)
  {
    && CommittedBy(c, net, q, key, CommitmentOf(c, p))
    && var s := net.parties[q].session;
       && Shows(c, s)
       && (|| Collide(c, CommitmentInput(c, s), CommitmentInput(c, p))
           || (s.sas.value.formatted == p.sas.value.formatted && NoncesOf(c, s) == NoncesOf(c, p)))
  }

  /** Against a network that delivers anything: a party that has stored the key of some party has its own human's
      consent, and a party with the stored key has a human who confirmed exactly this commitment, was shown the same
      number and took part with the same two nonces; or else SHA-256 collides, on two commitments or on a commitment
      and a handshake challenge. */
  lemma StoredPeerConfirmed(c: Crypto, net: Net, steps: seq<Step>, id: nat)
    requires Initial(net) && Legal(c, net, steps)
    requires var net' := Run(c, net, steps);
             && id in net'.parties && net'.parties[id].stored.Some?
             && IsParty(c, net', net'.parties[id].stored.value.publicKey)
    ensures var net' := Run(c, net, steps); var p := net'.parties[id]; var peer := p.stored.value;
            && p.human == Some(true) && Shows(c, p.session) && peer.nodeId == peer.publicKey
            && (|| (exists q: nat :: Agreed(c, net', q, peer.nodeId, p.session))
                || (exists a: Nonce, b: Nonce :: Collide(c, HandshakeInput(a, b), CommitmentInput(c, p.session))))
  {
    var net' := Run(c, net, steps);
    var p := net'.parties[id];
    RunKeeps(c, net, steps);
    assert PartyOk(c, p) && StoredOk(c, net', p);
    var key, m := p.stored.value.nodeId, CommitmentOf(c, p.session);
    if SomeoneCommitted(c, net', key, m) {
      var q: nat :| CommittedBy(c, net', q, key, m);
      var s := net'.parties[q].session;
      assert PartyOk(c, net'.parties[q]);
      if CommitmentInput(c, s) == CommitmentInput(c, p.session) {
        SameInputSameCeremony(c, s, p.session);
      }
      assert Agreed(c, net', q, key, p.session);
    } else {
      var a: Nonce, b: Nonce :| m == c.sha(HandshakeInput(a, b));
      TagsDiffer(c, p.session, a, b);
      assert Collide(c, HandshakeInput(a, b), CommitmentInput(c, p.session));
    }
  }

  // ---------- who the confirming party met ----------

  function SasInputOf(c: Crypto, s: Session): Bytes
    requires s.remote.Some? && s.remoteNonce.Some?
  {
    SasInput(c.publicOf(s.key), s.remote.value.nodeId, s.nonce, s.remoteNonce.value)
  }

  /** The two node ids of a ceremony, the lower first. */
  function IdsOf(c: Crypto, s: Session): (NodeId, NodeId)
    requires s.remote.Some?
  {
    var local, remote := c.publicOf(s.key), s.remote.value.nodeId;
    if AtMost(local, remote) then (local, remote) else (remote, local)
  }

  lemma SasInputLayout(c: Crypto, s: Session)
    requires s.remote.Some? && s.remoteNonce.Some?
    ensures var x, n := SasInputOf(c, s), |Ascii("BridgeOS-Pairing-SAS-v1")|;
            && x == Ascii("BridgeOS-Pairing-SAS-v1") + IdsOf(c, s).0 + IdsOf(c, s).1 + NoncesOf(c, s).0 +
                NoncesOf(c, s).1
            && x[n..n + 32] == IdsOf(c, s).0 && x[n + 32..n + 64] == IdsOf(c, s).1
  {
    var tag, i, j := Ascii("BridgeOS-Pairing-SAS-v1"), IdsOf(c, s), NoncesOf(c, s);
    assert SasInputOf(c, s) == tag + (i.0 + i.1 + j.0 + j.1) == tag + i.0 + i.1 + j.0 + j.1;
  }

  /** The commitment contains no node id. A party that confirmed it, under the key that `p` stored and with the same
      nonces, had met `p` and nobody else exactly if the two sides derived their SAS from the same bytes. If it had met
      another, two different inputs gave the same six digits. */
  lemma MetThisPartyExactlyIfSameSasInput(c: Crypto, p: Session, q: Session)
    requires Shows(c, p) && Shows(c, q)
    requires c.publicOf(q.key) == p.remote.value.nodeId && NoncesOf(c, p) == NoncesOf(c, q)
    ensures q.remote.value.nodeId == c.publicOf(p.key) <==> SasInputOf(c, p) == SasInputOf(c, q)
  {
    var a, b, r := c.publicOf(p.key), c.publicOf(q.key), q.remote.value.nodeId;
    SasInputLayout(c, p);
    SasInputLayout(c, q);
    if a != b {
      DistinctOrder(a, b);
    }
    if b != r {
      DistinctOrder(b, r);
    }
    assert SasInputOf(c, p) == SasInputOf(c, q) ==> IdsOf(c, p) == IdsOf(c, q);
  }

  /** Some legal run leads from `net` to `end`. */
  ghost predicate Reachable(c: Crypto, net: Net, end: Net) {
    exists steps :: Legal(c, net, steps) && Run(c, net, steps) == end
  }

  lemma OneMoreStep(c: Crypto, net: Net, end: Net, step: Step)
    requires Reachable(c, net, end) && Enabled(c, end, step)
    ensures Reachable(c, net, After(c, end, step))
  {
    var steps :| Legal(c, net, steps) && Run(c, net, steps) == end;
    var all := steps + [step];
    assert all[..|all| - 1] == steps;
    assert Legal(c, net, all) && Run(c, net, all) == After(c, end, step);
  }

  /** Two sides, before they have met anyone, and the node that the second will meet instead of the first: on the same
      side of the second in the order of node ids, and with six digits that agree. */
  ghost predicate SameDigits(c: Crypto, p: Session, q: Session, other: NodeId) {
    var a, b := c.publicOf(p.key), c.publicOf(q.key);
    && p == NewSession(p.key, p.name, p.nonce) && q == NewSession(q.key, q.name, q.nonce)
    && a != b && other != a && c.validKey(other)
    && (AtMost(a, b) <==> !AtMost(b, other))
    && Derive(c.sha, a, b, p.nonce, q.nonce).formatted == Derive(c.sha, b, other, q.nonce, p.nonce).formatted
  }

  function HelloFrom(id: NodeId, name: string, nonce: Nonce): Hello {
    Hello(id, id, name, nonce)
  }

  /** `p` and `q` as they stand once `p` has met `q` and `q` has met `other`: `p` accepts what `q` confirms. */
  ghost predicate Crossed(c: Crypto, p: Session, q: Session, id: NodeId, other: NodeId) {
    && p.sas.Some? && q.sas.Some? && c.publicOf(q.key) == id
    && q.remote.Some? && q.remote.value.nodeId == other
    && p.remote.Some? && p.remote.value.publicKey == id && CommitmentOf(c, p) == CommitmentOf(c, q)
    && Finalize(c, p, Confirm(c, q).value).Ok? && Finalize(c, p, Confirm(c, q).value).value.nodeId == id
  }

  lemma SameDigitsCross(c: Crypto, p: Session, q: Session, other: NodeId, name: string)
    requires Sound(c) && SameDigits(c, p, q, other)
    ensures var p', q' := MeetPeer(c, p, HelloOf(c, q)), MeetPeer(c, q, HelloFrom(other, name, p.nonce));
            p'.Ok? && q'.Ok? && Crossed(c, p'.value, q'.value, c.publicOf(q.key), other) && q'.value.key == q.key
  {
    var p', q' := MeetPeer(c, p, HelloOf(c, q)).value, MeetPeer(c, q, HelloFrom(other, name, p.nonce)).value;
    assert CommitmentInput(c, p') == CommitmentInput(c, q');
  }

  /** Both have met, and are asked. */
  ghost predicate BothAsked(c: Crypto, net: Net, p: Session, q: Session) {
    && net.parties.Keys == {0, 1}
    && net.parties[0].phase == Ask && net.parties[0].session == p
    && net.parties[1].phase == Ask && net.parties[1].session == q
  }

  lemma BothAreAsked(c: Crypto, net: Net, p: Session, q: Session, other: Hello) returns (end: Net)
    requires MeetPeer(c, p, HelloOf(c, q)).Ok? && MeetPeer(c, q, other).Ok?
    requires net.parties == map[0 := NewParty(true, p), 1 := NewParty(false, q)]
    ensures Reachable(c, net, end)
    ensures BothAsked(c, end, MeetPeer(c, p, HelloOf(c, q)).value, MeetPeer(c, q, other).value)
  {
    assert Legal(c, net, []) && Run(c, net, []) == net;
    end := net;
    OneMoreStep(c, net, end, Open(0));
    end := After(c, end, Open(0));
    OneMoreStep(c, net, end, Deliver(1, Request(other)));
    end := After(c, end, Deliver(1, Request(other)));
    OneMoreStep(c, net, end, Deliver(0, Response(HelloOf(c, q))));
    end := After(c, end, Deliver(0, Response(HelloOf(c, q))));
  }

  lemma BothConfirm(c: Crypto, net: Net, asked: Net, p: Session, q: Session) returns (end: Net)
    requires Reachable(c, net, asked) && BothAsked(c, asked, p, q) && p.sas.Some? && q.sas.Some?
    ensures Reachable(c, net, end) && end.parties.Keys == {0, 1}
    ensures end.parties[0].phase == AwaitConfirm && end.parties[0].session == p
    ensures end.parties[1].phase == AwaitConfirm && end.parties[1].session == q && end.parties[1].human == Some(true)
    ensures (c.publicOf(q.key), CommitmentOf(c, q)) in end.ledger
  {
    OneMoreStep(c, net, asked, Decide(0, true));
    end := After(c, asked, Decide(0, true));
    OneMoreStep(c, net, end, Decide(1, true));
    end := After(c, end, Decide(1, true));
  }

  lemma FirstStores(c: Crypto, net: Net, sure: Net, p: Session, q: Session, id: NodeId, other: NodeId)
      returns (end: Net)
    requires Reachable(c, net, sure) && sure.parties.Keys == {0, 1} && Crossed(c, p, q, id, other)
    requires sure.parties[0].phase == AwaitConfirm && sure.parties[0].session == p
    requires sure.parties[1].session == q
    requires (id, CommitmentOf(c, q)) in sure.ledger
    ensures Reachable(c, net, end) && end.parties.Keys == {0, 1} && end.parties[1] == sure.parties[1]
    ensures end.parties[0].stored.Some? && end.parties[0].stored.value.nodeId == id
  {
    var step := Deliver(0, Confirmed(Confirm(c, q).value));
    OneMoreStep(c, net, sure, step);
    end := After(c, sure, step);
  }

  /** Two parties that meet crosswise, confirm and go on to the end. */
  lemma CrossedRun(c: Crypto, net: Net, p: Session, q: Session, hello: Hello, id: NodeId) returns (end: Net)
    requires MeetPeer(c, p, HelloOf(c, q)).Ok? && MeetPeer(c, q, hello).Ok?
    requires Crossed(c, MeetPeer(c, p, HelloOf(c, q)).value, MeetPeer(c, q, hello).value, id, hello.nodeId)
    requires net.parties == map[0 := NewParty(true, p), 1 := NewParty(false, q)]
    ensures Reachable(c, net, end) && end.parties.Keys == {0, 1}
    ensures end.parties[0].stored.Some? && end.parties[0].stored.value.nodeId == id
    ensures end.parties[1].human == Some(true) && end.parties[1].session == MeetPeer(c, q, hello).value
  {
    var asked := BothAreAsked(c, net, p, q, hello);
    var p', q' := asked.parties[0].session, asked.parties[1].session;
    var sure := BothConfirm(c, net, asked, p', q');
    end := FirstStores(c, net, sure, p', q', id, hello.nodeId);
  }

  /** Then there is a run in which the first stores the second, whose human confirmed the same commitment for another
      node. */
  lemma SameDigitsLeaveIdentityOpen(c: Crypto, p: Session, q: Session, other: NodeId, name: string)
    returns (net: Net, end: Net)
    requires Sound(c) && SameDigits(c, p, q, other)
    ensures Initial(net) && Reachable(c, net, end) && end.parties.Keys == {0, 1}
    ensures end.parties[0].stored.Some? && end.parties[0].stored.value.nodeId == c.publicOf(q.key)
    ensures end.parties[1].human == Some(true) && IdOf(c, end.parties[1]) == c.publicOf(q.key)
    ensures end.parties[1].session.remote.Some? && end.parties[1].session.remote.value.nodeId == other
  {
    net := Net(map[0 := NewParty(true, p), 1 := NewParty(false, q)], {});
    SameDigitsCross(c, p, q, other, name);
    end := CrossedRun(c, net, p, q, HelloFrom(other, name, p.nonce), c.publicOf(q.key));
  }

  const LOWEST: NodeId :=
    [0, 0, 0, 0, 0, 0, 0, 0, 0, 0, 0, 0, 0, 0, 0, 0,
     0, 0, 0, 0, 0, 0, 0, 0, 0, 0, 0, 0, 0, 0, 0, 0]

  /** Such sides exist, even for a hash without any collision: only the six digits have to agree. */
  lemma SameDigitsHappen() returns (c: Crypto, p: Session, q: Session, other: NodeId)
    ensures Sound(c) && SameDigits(c, p, q, other)
    ensures forall x: Bytes, y: Bytes :: c.sha(x) == c.sha(y) ==> x == y
  {
    var first, second: NodeId := LOWEST, LOWEST[0 := 2];
    other := LOWEST[0 := 1];
    c := Crypto((x: Bytes) => LOWEST + x,
                (sk: Secret) => if sk == [] then first else second,
                (key: Bytes) => true,
                (sk: Secret, m: Bytes) => LOWEST + LOWEST,
                (key: Bytes, m: Bytes, signature: Bytes) => true);
    p, q := NewSession([], "", LOWEST), NewSession([0], "", LOWEST);
    assert first[0] < other[0] < second[0];
    assert c.publicOf(p.key) == first && c.publicOf(q.key) == second;
    forall x: Bytes, y: Bytes | c.sha(x) == c.sha(y) ensures x == y {
      assert x == (LOWEST + x)[32..] && y == (LOWEST + y)[32..];
    }
    assert forall x: Bytes :: c.sha(x)[..8] == LOWEST[..8];
  }
}
