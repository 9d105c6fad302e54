/**
 How `execute_pairing` ends, as a matter of the frames alone (crates/bridge-session/src/session.rs,
 crates/bridge-identity/src/pairing.rs): exactly which frames lead to trust, to a refusal or to an error, whatever else
 arrives before, between and after them.
 */
module CeremonyOutcome {
  import opened Common
  import opened ShortAuth
  import opened Pairing
  import opened Ceremonies
  import opened Sessions

  /** Passed over while waiting: neither a disconnect nor anything on the pairing channel. */
  predicate Passed(frame: Frame) {
    frame.Ping? || frame.Pong? || frame.Handshake? || (frame.Data? && frame.channel != 5)
  }

  /** The hello this side waits for, with a valid key that is the node id it claims. */
  predicate GoodHello(c: Crypto, initiator: bool, frame: Frame) {
    && frame.Pair? && (if initiator then frame.msg.Response? else frame.msg.Request?)
    && c.validKey(frame.msg.hello.publicKey) && frame.msg.hello.publicKey == frame.msg.hello.nodeId
  }

  /** This side once it has met the sender of the hello. */
  function Met(c: Crypto, mine: Session, hello: Hello): Session {
    Session(mine.key, mine.name, mine.nonce,
            Some(TrustedPeer(hello.nodeId, hello.nodeId, hello.name, PendingState)), Some(hello.nonce),
            Some(Derive(c.sha, c.publicOf(mine.key), hello.nodeId, mine.nonce, hello.nonce)))
  }

  /** A confirmation by the node that was met, with a signature of 64 bytes under its key for this side's commitment. */
  predicate GoodConfirmation(c: Crypto, met: Session, frame: Frame)
    requires met.sas.Some? && met.remote.Some?
  {
    && frame.Pair? && frame.msg.Confirmed? && frame.msg.confirmation.confirmed
    && frame.msg.confirmation.nodeId == met.remote.value.nodeId
    && |frame.msg.confirmation.signature| == 64
    && c.verify(met.remote.value.publicKey, CommitmentOf(c, met), frame.msg.confirmation.signature)
  }

  /** Frame `i` is the first from `from` on that is not passed over. */
  ghost predicate StopsAt(frames: seq<Frame>, from: nat, i: nat) {
    from <= i < |frames| && !Passed(frames[i]) && forall k :: from <= k < i ==> Passed(frames[k])
  }

  ghost predicate NeverStops(frames: seq<Frame>, from: nat) {
    forall k :: from <= k < |frames| ==> Passed(frames[k])
  }

  /** A side of the ceremony: who it is, and its human. */
  datatype Side = Side(crypto: Crypto, initiator: bool, mine: Session, human: Human)

  function MetBy(s: Side, frame: Frame): Session
    requires GoodHello(s.crypto, s.initiator, frame)
  {
    Met(s.crypto, s.mine, frame.msg.hello)
  }

  predicate Agrees(s: Side, frame: Frame) {
    GoodHello(s.crypto, s.initiator, frame) && s.human(MetBy(s, frame).sas.value)
  }

  /** The first frame that matters is a good hello, and the human confirms the number it leads to. */
  ghost predicate AgreedAt(s: Side, frames: seq<Frame>, i: nat) {
    StopsAt(frames, 0, i) && Agrees(s, frames[i])
  }

  /** The first is a good hello, and the human declines. */
  ghost predicate DeclinedAt(s: Side, frames: seq<Frame>, i: nat) {
    StopsAt(frames, 0, i) && GoodHello(s.crypto, s.initiator, frames[i]) && !Agrees(s, frames[i])
  }

  /** The first is agreed to, and the next is a good confirmation. */
  ghost predicate SealedAt(s: Side, frames: seq<Frame>, i: nat, j: nat) {
    AgreedAt(s, frames, i) && StopsAt(frames, i + 1, j) && GoodConfirmation(s.crypto, MetBy(s, frames[i]), frames[j])
  }

  /** The first is no good hello. */
  ghost predicate SpoiltAt(s: Side, frames: seq<Frame>, i: nat) {
    StopsAt(frames, 0, i) && !GoodHello(s.crypto, s.initiator, frames[i])
  }

  /** The first is agreed to, and the next is no good confirmation. */
  ghost predicate BrokenAt(s: Side, frames: seq<Frame>, i: nat, j: nat) {
    AgreedAt(s, frames, i) && StopsAt(frames, i + 1, j) && !GoodConfirmation(s.crypto, MetBy(s, frames[i]), frames[j])
  }

  lemma StopIsUnique(frames: seq<Frame>, from: nat, i: nat, j: nat)
    requires StopsAt(frames, from, i) && StopsAt(frames, from, j)
    ensures i == j
  {
  }

  // ---------- one more frame ----------

  lemma StopBefore(frames: seq<Frame>, frame: Frame, from: nat, i: nat)
    requires StopsAt(frames, from, i)
    ensures StopsAt(frames + [frame], from, i)
  {
  }

  lemma StopHere(frames: seq<Frame>, frame: Frame, from: nat)
    requires from <= |frames| && NeverStops(frames, from)
    ensures if Passed(frame) then NeverStops(frames + [frame], from) else StopsAt(frames + [frame], from, |frames|)
  {
  }

  // ---------- what a party's phase tells ----------

  /** The phase, the session and the record of a party, told by the frames it was driven over. */
  ghost predicate Tells(s: Side, frames: seq<Frame>, p: Party) {
    && p.initiator == s.initiator
    && match p.phase
       case AwaitHello => NeverStops(frames, 0) && p.session == s.mine && p.human == None && p.stored == None
       case AwaitConfirm =>
         && (exists i: nat ::
               AgreedAt(s, frames, i) && NeverStops(frames, i + 1) && p.session == MetBy(s, frames[i]))
         && p.human == Some(true) && p.stored == None
       case Trusted =>
         && (exists i: nat, j: nat :: SealedAt(s, frames, i, j)
                            && p.stored == Some(MetBy(s, frames[i]).remote.value.(trust := TrustedState)))
         && p.human == Some(true)
       case Rejected => (exists i: nat :: DeclinedAt(s, frames, i)) && p.human == Some(false) && p.stored == None
       case Aborted =>
         && ((exists i: nat :: SpoiltAt(s, frames, i)) || (exists i: nat, j: nat :: BrokenAt(s, frames, i, j)))
         && p.stored == None
       case _ => false
  }

  lemma MeetsExactly(c: Crypto, initiator: bool, mine: Session, frame: Frame)
    requires mine == NewSession(mine.key, mine.name, mine.nonce) && HelloIn(initiator, frame).Some?
    ensures var meeting := MeetPeer(c, mine, HelloIn(initiator, frame).value);
            if GoodHello(c, initiator, frame) then meeting == Ok(Met(c, mine, frame.msg.hello)) else meeting.Err?
  {
  }

  lemma SealsExactly(c: Crypto, met: Session, conf: Confirmation)
    requires met.sas.Some? && met.remote.Some?
    ensures Finalize(c, met, conf) ==
            if GoodConfirmation(c, met, Pair(Confirmed(conf))) then Ok(met.remote.value.(trust := TrustedState))
            else Err(FinalizeError(c, met, conf).value)
  {
  }

  lemma PassedLeaves(s: Side, p: Party, frame: Frame)
    requires Waiting(p) && Passed(frame)
    ensures DriveFrame(s.crypto, p, s.human, frame).0 == p
  {
  }

  /** A party that has ended is moved by nothing. */
  lemma EndedLeaves(s: Side, p: Party, frame: Frame)
    requires Ended(p)
    ensures DriveFrame(s.crypto, p, s.human, frame).0 == p
  {
  }

  lemma HelloDecides(s: Side, p: Party, frame: Frame)
    requires p.phase.AwaitHello? && p.initiator == s.initiator && p.session == s.mine && p.stored == None
    requires s.mine == NewSession(s.mine.key, s.mine.name, s.mine.nonce) && !Passed(frame)
    ensures var q := DriveFrame(s.crypto, p, s.human, frame).0;
            && q.initiator == s.initiator && q.stored == None
            && if !GoodHello(s.crypto, s.initiator, frame) then q.phase.Aborted?
               else if Agrees(s, frame)
               then q.phase.AwaitConfirm? && q.session == MetBy(s, frame) && q.human == Some(true)
               else q.phase.Rejected? && q.human == Some(false)
  {
    var hello := HelloIn(s.initiator, frame);
    if hello.None? {
      DriveOther(s.crypto, p, s.human, frame);
    } else {
      MeetsExactly(s.crypto, s.initiator, s.mine, frame);
      DriveHello(s.crypto, p, s.human, frame, hello.value);
    }
  }

  lemma ConfirmationDecides(s: Side, p: Party, frame: Frame)
    requires p.phase.AwaitConfirm? && p.initiator == s.initiator && p.human == Some(true) && p.stored == None
    requires p.session.sas.Some? && p.session.remote.Some? && !Passed(frame)
    ensures var q := DriveFrame(s.crypto, p, s.human, frame).0;
            && q.initiator == s.initiator && q.human == Some(true)
            && if GoodConfirmation(s.crypto, p.session, frame)
               then q.phase.Trusted? && q.stored == Some(p.session.remote.value.(trust := TrustedState))
               else q.phase.Aborted? && q.stored == None
  {
    if frame.Pair? && frame.msg.Confirmed? {
      SealsExactly(s.crypto, p.session, frame.msg.confirmation);
      DriveConfirmation(s.crypto, p, s.human, frame.msg.confirmation);
    } else {
      DriveOther(s.crypto, p, s.human, frame);
    }
  }

  lemma HelloTells(s: Side, frames: seq<Frame>, p: Party, frame: Frame)
    requires s.mine == NewSession(s.mine.key, s.mine.name, s.mine.nonce)
    requires p.phase.AwaitHello? && Tells(s, frames, p)
    ensures Tells(s, frames + [frame], DriveFrame(s.crypto, p, s.human, frame).0)
  {
    var all, q := frames + [frame], DriveFrame(s.crypto, p, s.human, frame).0;
    StopHere(frames, frame, 0);
    if Passed(frame) {
      PassedLeaves(s, p, frame);
    } else {
      HelloDecides(s, p, frame);
      var i := |frames|;
      assert all[i] == frame;
      if !GoodHello(s.crypto, s.initiator, frame) {
        assert SpoiltAt(s, all, i);
      } else if Agrees(s, frame) {
        assert AgreedAt(s, all, i) && NeverStops(all, i + 1) && q.session == MetBy(s, all[i]);
      } else {
        assert DeclinedAt(s, all, i);
      }
    }
  }

  lemma ConfirmationTells(s: Side, frames: seq<Frame>, p: Party, frame: Frame)
    requires p.phase.AwaitConfirm? && Tells(s, frames, p)
    ensures Tells(s, frames + [frame], DriveFrame(s.crypto, p, s.human, frame).0)
  {
    var all, q := frames + [frame], DriveFrame(s.crypto, p, s.human, frame).0;
    var i: nat :| AgreedAt(s, frames, i) && NeverStops(frames, i + 1) && p.session == MetBy(s, frames[i]);
    StopBefore(frames, frame, 0, i);
    assert all[i] == frames[i] && AgreedAt(s, all, i);
    StopHere(frames, frame, i + 1);
    if Passed(frame) {
      PassedLeaves(s, p, frame);
      assert NeverStops(all, i + 1) && q.session == MetBy(s, all[i]);
    } else {
      ConfirmationDecides(s, p, frame);
      var j := |frames|;
      assert all[j] == frame;
      if GoodConfirmation(s.crypto, p.session, frame) {
        assert SealedAt(s, all, i, j);
      } else {
        assert BrokenAt(s, all, i, j);
      }
    }
  }

  lemma EndedTells(s: Side, frames: seq<Frame>, p: Party, frame: Frame)
    requires Ended(p) && Tells(s, frames, p)
    ensures Tells(s, frames + [frame], p)
  {
    var all := frames + [frame];
    assert forall i :: 0 <= i < |frames| ==> all[i] == frames[i];
    forall from: nat, i: nat | StopsAt(frames, from, i) ensures StopsAt(all, from, i) {
      StopBefore(frames, frame, from, i);
    }
    match p.phase
    case Trusted =>
      var i: nat, j: nat :| SealedAt(s, frames, i, j)
        && p.stored == Some(MetBy(s, frames[i]).remote.value.(trust := TrustedState));
      assert SealedAt(s, all, i, j);
    case Rejected =>
      var i: nat :| DeclinedAt(s, frames, i);
      assert DeclinedAt(s, all, i);
    case Aborted =>
      if i: nat :| SpoiltAt(s, frames, i) {
        assert SpoiltAt(s, all, i);
      } else {
        var i: nat, j: nat :| BrokenAt(s, frames, i, j);
        assert BrokenAt(s, all, i, j);
      }
  }

  /** The party that `s` has become after the frames. */
  function Driven(s: Side, frames: seq<Frame>): Party {
    Drive(s.crypto, Begun(s.crypto, s.initiator, s.mine), s.human, frames).0
  }

  lemma {:induction false} DrivenTells(s: Side, frames: seq<Frame>)
    requires s.mine == NewSession(s.mine.key, s.mine.name, s.mine.nonce)
    ensures Tells(s, frames, Driven(s, frames))
    decreases |frames|
  {
    if frames == [] {
    } else {
      var init, last := frames[..|frames| - 1], frames[|frames| - 1];
      var p := Driven(s, init);
      DrivenTells(s, init);
      assert frames == init + [last];
      if p.phase.AwaitHello? {
        HelloTells(s, init, p, last);
      } else if p.phase.AwaitConfirm? {
        ConfirmationTells(s, init, p, last);
      } else {
        EndedTells(s, init, p, last);
        EndedLeaves(s, p, last);
      }
    }
  }

  // ---------- main result ----------

  /** Over every sequence of frames, the ceremony ends in trust exactly if the first frame that matters is a good hello,
      the human confirms the number it leads to, and the next that matters is a good confirmation; the node of that
      hello is then stored as trusted. It ends in a refusal exactly if the human declines after a good hello. It is
      still waiting exactly if no frame has mattered since it began or since the human confirmed. Otherwise it is an
      error. */
  lemma OutcomeExactly(s: Side, frames: seq<Frame>)
    requires s.mine == NewSession(s.mine.key, s.mine.name, s.mine.nonce)
    ensures var p := Driven(s, frames);
            && (EndingOf(p).Succeeded? <==> exists i: nat, j: nat :: SealedAt(s, frames, i, j))
            && (EndingOf(p) == RefusedHere <==> exists i: nat :: DeclinedAt(s, frames, i))
            && (Waiting(p) <==> NeverStops(frames, 0)
                                || exists i: nat :: AgreedAt(s, frames, i) && NeverStops(frames, i + 1))
    ensures forall i: nat, j: nat :: SealedAt(s, frames, i, j) ==>
              var hello := frames[i].msg.hello;
              EndingOf(Driven(s, frames)) ==
              Succeeded(TrustedPeer(hello.nodeId, hello.publicKey, hello.name, TrustedState))
  {
    var p := Driven(s, frames);
    DrivenTells(s, frames);
    forall from: nat, i: nat, j: nat | StopsAt(frames, from, i) && StopsAt(frames, from, j) ensures i == j {
      StopIsUnique(frames, from, i, j);
    }
  }
}
