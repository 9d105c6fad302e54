/**
 The pairing ceremony between two honest parties (crates/bridge-session/src/session.rs, `execute_pairing`
 and `recv_data_frame`), joined by two FIFO channels. Every interleaving is covered: each party acts when it
 likes, unrelated frames and pings may be sent at any time, either human may refuse, either party may lose
 the connection or hang up at any point.
 */
module PairingRuns {
  import opened Common
  import opened ShortAuth
  import opened Pairing
  import opened Ceremonies

  datatype World = World(me: Party, peer: Party, outbox: seq<Frame>, inbox: seq<Frame>, lost: bool)

  /** The same world from the other side. */
  function Mirror(w: World): World {
    World(w.peer, w.me, w.inbox, w.outbox, w.lost)
  }

  datatype Action = Begin | Take | Decide(yes: bool) | Noise(frame: Frame) | Lose | HangUp

  /** An action of `me`; one that is not enabled changes nothing. */
  function Act(c: Crypto, w: World, action: Action): World {
    match action
    case Begin =>
      var begun := Opening(c, w.me);
      w.(me := begun.0, outbox := w.outbox + Frames(begun.1))
    case Take =>
      if !Waiting(w.me) || w.inbox == [] then w
      else
        var taken := TakeFrame(c, w.me, w.inbox[0]);
        w.(me := taken.0, outbox := w.outbox + taken.1, inbox := w.inbox[1..])
    case Decide(yes) =>
      if !w.me.phase.Ask? then w
      else
        var answered := Answer(c, w.me, yes);
        w.(me := answered.0, outbox := w.outbox + Frames(answered.1))
    case Noise(frame) =>
      if frame.Pair? || frame.Disconnect? || Garbled(frame) then w else w.(outbox := w.outbox + [frame])
    case Lose =>
      if Ended(w.me) then w else w.(me := w.me.(phase := Aborted), lost := true)
    case HangUp =>
      if Ended(w.me) then w else w.(me := w.me.(phase := Aborted), outbox := w.outbox + [Disconnect], lost := true)
  }

  /** The disturbances happen: a frame that is not of the ceremony is sent, and whoever loses the connection or hangs up
      before the end is out of the ceremony, in the second case with a disconnect on the wire. */
  lemma Disturbances(c: Crypto, w: World, frame: Frame)
    ensures frame.Ping? || frame.Pong? || frame.Handshake? || (frame.Data? && frame.channel != 5) ==>
              Act(c, w, Noise(frame)) == w.(outbox := w.outbox + [frame])
    ensures !Ended(w.me) ==>
              && Act(c, w, Lose).me.phase == Aborted && Act(c, w, Lose).lost && Act(c, w, Lose).outbox == w.outbox
              && Act(c, w, HangUp).me.phase == Aborted && Act(c, w, HangUp).lost
              && Act(c, w, HangUp).outbox == w.outbox + [Disconnect]
  {
  }

  datatype Step = Mine(action: Action) | Theirs(action: Action)

  function After(c: Crypto, w: World, step: Step): World {
    match step
    case Mine(action) => Act(c, w, action)
    case Theirs(action) => Mirror(Act(c, Mirror(w), action))
  }

  /** The two identities and nonces the ceremony starts from. */
  datatype Setup = Setup(crypto: Crypto, mine: Session, theirs: Session)

  ghost predicate Proper(u: Setup) {
    && Sound(u.crypto)
    && u.mine == NewSession(u.mine.key, u.mine.name, u.mine.nonce)
    && u.theirs == NewSession(u.theirs.key, u.theirs.name, u.theirs.nonce)
    && u.crypto.publicOf(u.mine.key) != u.crypto.publicOf(u.theirs.key)
  }

  function Swap(u: Setup): Setup {
    Setup(u.crypto, u.theirs, u.mine)
  }

  function Begun(u: Setup): World {
    World(NewParty(true, u.mine), NewParty(false, u.theirs), [], [], false)
  }

  function Run(u: Setup, steps: seq<Step>): World {
    if steps == [] then Begun(u) else After(u.crypto, Run(u, steps[..|steps| - 1]), steps[|steps| - 1])
  }

  // ---------- the invariant ----------

  /** The pairing messages among the frames. */
  function PairsOf(frames: seq<Frame>): seq<PairingMessage> {
    if frames == [] then []
    else if frames[0].Pair? then [frames[0].msg] + PairsOf(frames[1..])
    else PairsOf(frames[1..])
  }

  lemma {:induction false} PairsOfConcat(a: seq<Frame>, b: seq<Frame>)
    ensures PairsOf(a + b) == PairsOf(a) + PairsOf(b)
  {
    if a == [] {
      assert a + b == b;
    } else {
      assert (a + b)[1..] == a[1..] + b;
      PairsOfConcat(a[1..], b);
    }
  }

  /** A session of `s` that has met `t`. */
  function Met(c: Crypto, s: Session, t: Session): Session {
    s.(remote := Some(TrustedPeer(c.publicOf(t.key), c.publicOf(t.key), t.name, PendingState)),
       remoteNonce := Some(t.nonce),
       sas := Some(Derive(c.sha, c.publicOf(s.key), c.publicOf(t.key), s.nonce, t.nonce)))
  }

  function ConfirmMessage(c: Crypto, s: Session, t: Session): PairingMessage {
    Confirmed(Confirmation(c.publicOf(s.key), true, c.sign(s.key, CommitmentOf(c, Met(c, s, t)))))
  }

  function RecordOf(c: Crypto, t: Session): TrustedPeer {
    TrustedPeer(c.publicOf(t.key), c.publicOf(t.key), t.name, TrustedState)
  }

  /** What a party has sent so far follows from its human's answer. */
  ghost predicate SentOk(c: Crypto, s: Session, t: Session, p: Party) {
    var hello := HelloMessage(c, p.initiator, s);
    match p.human
    case None => p.sent == [] || p.sent == [hello]
    case Some(true) => p.sent == [hello, ConfirmMessage(c, s, t)]
    case Some(false) => p.sent == [hello, Refused]
  }

  /** A party with initial session `s` facing one with initial session `t`. */
  ghost predicate PartyOk(c: Crypto, s: Session, t: Session, p: Party, peer: Party, lost: bool) {
    && SentOk(c, s, t, p)
    && p.got <= |peer.sent|
    && (p.stored.Some? <==> p.phase.Trusted?)
    && (p.session.sas.Some? ==> p.session.sas == Met(c, s, t).sas)
    && match p.phase
       case Start => p.initiator && p.session == s && p.got == 0 && p.human == None && p.sent == []
       case AwaitHello =>
         && p.session == s && p.got == 0 && p.human == None
         && p.sent == if p.initiator then [HelloMessage(c, true, s)] else []
       case Ask => p.session == Met(c, s, t) && p.got == 1 && p.human == None && |p.sent| == 1
       case AwaitConfirm => p.session == Met(c, s, t) && p.got == 1 && p.human == Some(true)
       case Trusted =>
         && p.human == Some(true) && peer.human == Some(true)
         && p.stored == Some(RecordOf(c, t))
         && p.session.sas == Met(c, s, t).sas
       case Rejected => p.session == Met(c, s, t) && p.human == Some(false)
       case Aborted => lost || peer.human == Some(false)
  }

  ghost predicate ChannelOk(p: Party, peer: Party, inbox: seq<Frame>, lost: bool) {
    && p.got <= |peer.sent|
    && PairsOf(inbox) == peer.sent[p.got..]
    && (Disconnect in inbox ==> lost)
    && (forall f :: f in inbox ==> !Garbled(f))
  }

  ghost predicate Inv(u: Setup, w: World) {
    && w.me.initiator != w.peer.initiator
    && PartyOk(u.crypto, u.mine, u.theirs, w.me, w.peer, w.lost)
    && PartyOk(u.crypto, u.theirs, u.mine, w.peer, w.me, w.lost)
    && ChannelOk(w.me, w.peer, w.inbox, w.lost)
    && ChannelOk(w.peer, w.me, w.outbox, w.lost)
  }

  // ---------- preservation ----------

  lemma MetIsMeetPeer(c: Crypto, s: Session, t: Session)
    requires Sound(c)
    ensures MeetPeer(c, s, HelloOf(c, t)) == Ok(Met(c, s, t))
    ensures Confirm(c, Met(c, s, t)) == Ok(ConfirmMessage(c, s, t).confirmation)
  {
  }

  lemma FinalizeHonest(c: Crypto, s: Session, t: Session)
    requires Sound(c) && c.publicOf(s.key) != c.publicOf(t.key)
    ensures Finalize(c, Met(c, s, t), ConfirmMessage(c, t, s).confirmation) == Ok(RecordOf(c, t))
  {
    BothSidesAgree(c.sha, c.publicOf(s.key), c.publicOf(t.key), s.nonce, t.nonce);
    assert CommitmentOf(c, Met(c, s, t)) == CommitmentOf(c, Met(c, t, s));
  }

  /** The next pairing message at a waiting party is what the peer's answer makes it. */
  lemma NextMessage(u: Setup, w: World, msg: PairingMessage)
    requires Inv(u, w) && Waiting(w.me) && w.inbox != [] && w.inbox[0] == Pair(msg)
    ensures w.me.got < |w.peer.sent| && msg == w.peer.sent[w.me.got]
    ensures w.me.phase.AwaitHello? ==> msg == HelloMessage(u.crypto, w.peer.initiator, u.theirs)
    ensures w.me.phase.AwaitConfirm? ==>
              if w.peer.human == Some(true) then msg == ConfirmMessage(u.crypto, u.theirs, u.mine)
              else msg == Refused && w.peer.human == Some(false)
  {
  }

  /** Taking a pairing message: a hello is answered, a confirmation always verifies, a refusal aborts. */
  lemma TakeResult(u: Setup, w: World, msg: PairingMessage)
    requires Proper(u) && Inv(u, w) && Waiting(w.me) && w.inbox != [] && w.inbox[0] == Pair(msg)
    ensures var taken := TakeMessage(u.crypto, w.me, msg);
            && taken.0.sent == w.me.sent + taken.1
            && |taken.1| <= 1
            && taken.0.got == w.me.got + 1 <= |w.peer.sent|
            && taken.0.initiator == w.me.initiator && taken.0.human == w.me.human
            && PartyOk(u.crypto, u.mine, u.theirs, taken.0, w.peer, w.lost)
  {
    var c := u.crypto;
    NextMessage(u, w, msg);
    MetIsMeetPeer(c, u.mine, u.theirs);
    FinalizeHonest(c, u.mine, u.theirs);
  }

  lemma FramesOne(msgs: seq<PairingMessage>)
    requires |msgs| <= 1
    ensures PairsOf(Frames(msgs)) == msgs && Disconnect !in Frames(msgs)
    ensures forall f :: f in Frames(msgs) ==> f.Pair?
  {
  }

  /** Sending pairing messages and nothing else keeps the channel in step. */
  lemma SendKeepsChannel(me: Party, me': Party, peer: Party, outbox: seq<Frame>, msgs: seq<PairingMessage>, lost: bool)
    requires ChannelOk(peer, me, outbox, lost) && |msgs| <= 1 && me'.sent == me.sent + msgs
    ensures ChannelOk(peer, me', outbox + Frames(msgs), lost)
  {
    FramesOne(msgs);
    PairsOfConcat(outbox, Frames(msgs));
  }

  lemma ForeignKeepsChannel(me: Party, peer: Party, outbox: seq<Frame>, frame: Frame, lost: bool)
    requires ChannelOk(peer, me, outbox, lost) && !frame.Pair? && !Garbled(frame) && (frame.Disconnect? ==> lost)
    ensures ChannelOk(peer, me, outbox + [frame], lost)
  {
    PairsOfConcat(outbox, [frame]);
    assert PairsOf([frame][1..]) == [];
  }

  /** The peer's own part of the invariant looks at `me` only through what I sent and what my human said. */
  lemma PeerUnaffected(c: Crypto, s: Session, t: Session, p: Party, me: Party, me': Party, lost: bool, lost': bool)
    requires PartyOk(c, s, t, p, me, lost) && |me.sent| <= |me'.sent|
    requires (me.human.Some? ==> me'.human == me.human) && (lost ==> lost')
    ensures PartyOk(c, s, t, p, me', lost')
  {
  }

  /** The pieces of the invariant after an action of `me`. */
  lemma Assemble(u: Setup, w: World, w': World)
    requires Inv(u, w) && w'.peer == w.peer && w'.me.initiator == w.me.initiator
    requires |w.me.sent| <= |w'.me.sent| && (w.me.human.Some? ==> w'.me.human == w.me.human) && (w.lost ==> w'.lost)
    requires PartyOk(u.crypto, u.mine, u.theirs, w'.me, w.peer, w'.lost)
    requires ChannelOk(w'.me, w.peer, w'.inbox, w'.lost) && ChannelOk(w.peer, w'.me, w'.outbox, w'.lost)
    ensures Inv(u, w')
  {
    PeerUnaffected(u.crypto, u.theirs, u.mine, w.peer, w.me, w'.me, w.lost, w'.lost);
  }

  /** Taking the front of the inbox. */
  lemma TakenFromInbox(p: Party, p': Party, peer: Party, inbox: seq<Frame>, lost: bool)
    requires ChannelOk(p, peer, inbox, lost) && inbox != []
    requires p'.got == if inbox[0].Pair? then p.got + 1 else p.got
    ensures ChannelOk(p', peer, inbox[1..], lost)
    ensures !Garbled(inbox[0]) && (inbox[0].Disconnect? ==> lost)
  {
    assert inbox[0] in inbox;
    if inbox[0].Pair? {
      assert PairsOf(inbox) == [inbox[0].msg] + PairsOf(inbox[1..]);
      assert PairsOf(inbox[1..]) == peer.sent[p.got..][1..] == peer.sent[p'.got..];
    } else {
      assert PairsOf(inbox) == PairsOf(inbox[1..]);
    }
  }

  lemma TakenPair(u: Setup, w: World, p: Party, msgs: seq<PairingMessage>)
    requires Inv(u, w) && w.inbox != [] && w.inbox[0].Pair?
    requires p.sent == w.me.sent + msgs && |msgs| <= 1 && p.got == w.me.got + 1
    requires p.initiator == w.me.initiator && p.human == w.me.human
    requires PartyOk(u.crypto, u.mine, u.theirs, p, w.peer, w.lost)
    ensures Inv(u, w.(me := p, outbox := w.outbox + Frames(msgs), inbox := w.inbox[1..]))
  {
    TakenFromInbox(w.me, p, w.peer, w.inbox, w.lost);
    SendKeepsChannel(w.me, p, w.peer, w.outbox, msgs, w.lost);
    Assemble(u, w, w.(me := p, outbox := w.outbox + Frames(msgs), inbox := w.inbox[1..]));
  }

  lemma TakingPair(c: Crypto, w: World) returns (p: Party, msgs: seq<PairingMessage>)
    requires Waiting(w.me) && w.inbox != [] && w.inbox[0].Pair?
    ensures (p, msgs) == TakeMessage(c, w.me, w.inbox[0].msg)
    ensures Act(c, w, Take) == w.(me := p, outbox := w.outbox + Frames(msgs), inbox := w.inbox[1..])
  {
    p, msgs := TakeMessage(c, w.me, w.inbox[0].msg).0, TakeMessage(c, w.me, w.inbox[0].msg).1;
  }

  lemma TakePairKeepsInv(u: Setup, w: World)
    requires Proper(u) && Inv(u, w) && Waiting(w.me) && w.inbox != [] && w.inbox[0].Pair?
    ensures Inv(u, Act(u.crypto, w, Take))
  {
    var p, msgs := TakingPair(u.crypto, w);
    TakeResult(u, w, w.inbox[0].msg);
    TakenPair(u, w, p, msgs);
  }

  lemma TakenOther(u: Setup, w: World, phase: Phase, out: seq<Frame>)
    requires Inv(u, w) && Waiting(w.me) && w.inbox != [] && !w.inbox[0].Pair?
    requires phase == if w.inbox[0].Disconnect? then Aborted else w.me.phase
    requires out == if w.inbox[0].Ping? then [Pong(w.inbox[0].nonce)] else []
    ensures Inv(u, w.(me := w.me.(phase := phase), outbox := w.outbox + out, inbox := w.inbox[1..]))
  {
    var me := w.me.(phase := phase);
    TakenFromInbox(w.me, me, w.peer, w.inbox, w.lost);
    if w.inbox[0].Ping? {
      ForeignKeepsChannel(w.me, w.peer, w.outbox, Pong(w.inbox[0].nonce), w.lost);
    } else {
      assert w.outbox + [] == w.outbox;
    }
    assert PartyOk(u.crypto, u.mine, u.theirs, me, w.peer, w.lost);
    Assemble(u, w, w.(me := me, outbox := w.outbox + out, inbox := w.inbox[1..]));
  }

  lemma TakeOtherKeepsInv(u: Setup, w: World)
    requires Inv(u, w) && Waiting(w.me) && w.inbox != [] && !w.inbox[0].Pair?
    ensures Inv(u, Act(u.crypto, w, Take))
  {
    TakenFromInbox(w.me, w.me, w.peer, w.inbox, w.lost);
    var taken := TakeFrame(u.crypto, w.me, w.inbox[0]);
    TakenOther(u, w, taken.0.phase, taken.1);
  }

  lemma TakeKeepsInv(u: Setup, w: World)
    requires Proper(u) && Inv(u, w)
    ensures Inv(u, Act(u.crypto, w, Take))
  {
    if Waiting(w.me) && w.inbox != [] {
      if w.inbox[0].Pair? {
        TakePairKeepsInv(u, w);
      } else {
        TakeOtherKeepsInv(u, w);
      }
    }
  }

  lemma AnswerOk(u: Setup, w: World, yes: bool)
    requires Proper(u) && Inv(u, w) && w.me.phase.Ask?
    ensures var answered := Answer(u.crypto, w.me, yes);
            && answered.0.sent == w.me.sent + answered.1 && |answered.1| == 1
            && PartyOk(u.crypto, u.mine, u.theirs, answered.0, w.peer, w.lost)
  {
    MetIsMeetPeer(u.crypto, u.mine, u.theirs);
    assert w.me.sent == [HelloMessage(u.crypto, w.me.initiator, u.mine)];
  }

  lemma DecideKeepsInv(u: Setup, w: World, yes: bool)
    requires Proper(u) && Inv(u, w)
    ensures Inv(u, Act(u.crypto, w, Decide(yes)))
  {
    if w.me.phase.Ask? {
      var answered := Answer(u.crypto, w.me, yes);
      AnswerOk(u, w, yes);
      SendKeepsChannel(w.me, answered.0, w.peer, w.outbox, answered.1, w.lost);
      Assemble(u, w, Act(u.crypto, w, Decide(yes)));
    }
  }

  lemma BeginKeepsInv(u: Setup, w: World)
    requires Proper(u) && Inv(u, w)
    ensures Inv(u, Act(u.crypto, w, Begin))
  {
    var begun := Opening(u.crypto, w.me);
    SendKeepsChannel(w.me, begun.0, w.peer, w.outbox, begun.1, w.lost);
    assert PartyOk(u.crypto, u.mine, u.theirs, begun.0, w.peer, w.lost);
    Assemble(u, w, Act(u.crypto, w, Begin));
  }

  lemma NoiseKeepsInv(u: Setup, w: World, frame: Frame)
    requires Inv(u, w) && !frame.Pair? && !frame.Disconnect? && !Garbled(frame)
    ensures Inv(u, Act(u.crypto, w, Noise(frame)))
  {
    ForeignKeepsChannel(w.me, w.peer, w.outbox, frame, w.lost);
  }

  lemma GivingUpKeepsInv(u: Setup, w: World, action: Action)
    requires Inv(u, w) && (action.Lose? || action.HangUp?) && !Ended(w.me)
    ensures Inv(u, Act(u.crypto, w, action))
  {
    var w' := Act(u.crypto, w, action);
    if action.HangUp? {
      assert ChannelOk(w.peer, w.me, w.outbox, true);
      ForeignKeepsChannel(w.me, w.peer, w.outbox, Disconnect, true);
    }
    assert PartyOk(u.crypto, u.mine, u.theirs, w'.me, w.peer, true);
    Assemble(u, w, w');
  }

  lemma ActKeepsInv(u: Setup, w: World, action: Action)
    requires Proper(u) && Inv(u, w)
    ensures Inv(u, Act(u.crypto, w, action))
  {
    if Act(u.crypto, w, action) != w {
      match action
      case Begin => BeginKeepsInv(u, w);
      case Take => TakeKeepsInv(u, w);
      case Decide(yes) => DecideKeepsInv(u, w, yes);
      case Noise(frame) => NoiseKeepsInv(u, w, frame);
      case Lose => GivingUpKeepsInv(u, w, Lose);
      case HangUp => GivingUpKeepsInv(u, w, HangUp);
    }
  }

  lemma {:induction false} RunKeepsInv(u: Setup, steps: seq<Step>)
    requires Proper(u)
    ensures Inv(u, Run(u, steps))
  {
    if steps == [] {
    } else {
      var w, step := Run(u, steps[..|steps| - 1]), steps[|steps| - 1];
      RunKeepsInv(u, steps[..|steps| - 1]);
      if step.Mine? {
        ActKeepsInv(u, w, step.action);
      } else {
        ActKeepsInv(Swap(u), Mirror(w), step.action);
      }
    }
  }

  // ---------- main results ----------

  /** In every interleaving, whoever has stored the peer as trusted has the consent of both humans, and has
      stored the identity of the party it was actually talking to. */
  lemma TrustNeedsBothHumans(u: Setup, steps: seq<Step>)
    requires Proper(u)
    ensures var w := Run(u, steps);
            && (w.me.stored.Some? || w.peer.stored.Some? || w.me.phase.Trusted? || w.peer.phase.Trusted? ==>
                  w.me.human == Some(true) && w.peer.human == Some(true))
            && (w.me.stored.Some? ==> w.me.stored == Some(RecordOf(u.crypto, u.theirs)))
            && (w.peer.stored.Some? ==> w.peer.stored == Some(RecordOf(u.crypto, u.mine)))
  {
    RunKeepsInv(u, steps);
  }

  /** The two parties never see different SAS values, at any point of any run: whoever is asked, has answered either
      way or has stored the peer has a SAS, and whenever both have one, also after giving up, it is the same. */
  lemma SameSasEverywhere(u: Setup, steps: seq<Step>)
    requires Proper(u)
    ensures var w := Run(u, steps);
            && (w.me.phase in {Ask, AwaitConfirm, Trusted, Rejected} ==> w.me.session.sas.Some?)
            && (w.peer.phase in {Ask, AwaitConfirm, Trusted, Rejected} ==> w.peer.session.sas.Some?)
            && (w.me.session.sas.Some? && w.peer.session.sas.Some? ==> w.me.session.sas == w.peer.session.sas)
  {
    RunKeepsInv(u, steps);
    BothSidesAgree(u.crypto.sha, u.crypto.publicOf(u.mine.key), u.crypto.publicOf(u.theirs.key), u.mine.nonce,
                   u.theirs.nonce);
  }

  /** Nothing is left to do: neither party can begin or take a frame, and no human is being asked. */
  predicate Quiescent(w: World) {
    && !w.me.phase.Start? && !w.peer.phase.Start? && !w.me.phase.Ask? && !w.peer.phase.Ask?
    && (Waiting(w.me) ==> w.inbox == []) && (Waiting(w.peer) ==> w.outbox == [])
  }

  /** If both humans confirm and nothing is lost, a run that has come to rest has both parties trusted, with the
      same SAS and each other's record stored. */
  lemma ConsentLeadsToTrust(u: Setup, steps: seq<Step>)
    requires Proper(u)
    requires var w := Run(u, steps);
             Quiescent(w) && !w.lost && w.me.human != Some(false) && w.peer.human != Some(false)
    ensures var w := Run(u, steps);
            && w.me.phase == Trusted && w.peer.phase == Trusted
            && w.me.stored == Some(RecordOf(u.crypto, u.theirs)) && w.peer.stored == Some(RecordOf(u.crypto, u.mine))
            && w.me.session.sas.Some? && w.me.session.sas == w.peer.session.sas
  {
    var w := Run(u, steps);
    RunKeepsInv(u, steps);
    SameSasEverywhere(u, steps);
    assert !w.me.phase.Aborted? && !w.peer.phase.Aborted?;
    assert Waiting(w.me) ==> w.me.got == |w.peer.sent|;
    assert Waiting(w.peer) ==> w.peer.got == |w.me.sent|;
  }

  // ---------- every run comes to rest ----------

  function FrameWeight(f: Frame): nat {
    if f.Ping? then 2 else 1
  }

  function Weight(frames: seq<Frame>): nat {
    if frames == [] then 0 else FrameWeight(frames[0]) + Weight(frames[1..])
  }

  lemma {:induction false} WeightConcat(a: seq<Frame>, b: seq<Frame>)
    ensures Weight(a + b) == Weight(a) + Weight(b)
  {
    if a == [] {
      assert a + b == b;
    } else {
      assert (a + b)[1..] == a[1..] + b;
      WeightConcat(a[1..], b);
    }
  }

  function PhaseRank(p: Phase): nat {
    match p
    case Start => 8
    case AwaitHello => 6
    case Ask => 4
    case AwaitConfirm => 2
    case _ => 0
  }

  function Rank(w: World): nat {
    PhaseRank(w.me.phase) + PhaseRank(w.peer.phase) + Weight(w.inbox) + Weight(w.outbox)
  }

  lemma WeightOfFrames(frames: seq<Frame>, msgs: seq<PairingMessage>)
    requires |msgs| <= 1
    ensures Weight(frames + Frames(msgs)) == Weight(frames) + |msgs|
  {
    WeightConcat(frames, Frames(msgs));
    if msgs != [] {
      assert Frames(msgs[1..]) == [];
      assert Weight(Frames(msgs)[1..]) == 0;
    }
  }

  lemma WeightOfOne(frames: seq<Frame>, f: Frame)
    ensures Weight(frames + [f]) == Weight(frames) + FrameWeight(f)
  {
    WeightConcat(frames, [f]);
    assert Weight([f][1..]) == 0;
  }

  lemma TakeApproachesRest(c: Crypto, w: World)
    requires Waiting(w.me) && w.inbox != []
    ensures Rank(Act(c, w, Take)) < Rank(w)
  {
    assert Weight(w.inbox) == FrameWeight(w.inbox[0]) + Weight(w.inbox[1..]);
    match w.inbox[0]
    case Pair(msg) => WeightOfFrames(w.outbox, TakeMessage(c, w.me, msg).1);
    case Ping(nonce) => WeightOfOne(w.outbox, Pong(nonce));
    case _ => assert w.outbox + [] == w.outbox;
  }

  lemma BeginApproachesRest(c: Crypto, w: World)
    requires w.me.phase.Start?
    ensures Rank(Act(c, w, Begin)) < Rank(w)
  {
    WeightOfFrames(w.outbox, Opening(c, w.me).1);
  }

  /** Apart from unrelated frames being sent, every action that changes anything brings the run closer to rest,
      so a run without fresh unrelated frames has at most `Rank` effective steps. */
  lemma ActionsApproachRest(c: Crypto, w: World, action: Action)
    requires !action.Noise? && Act(c, w, action) != w
    ensures Rank(Act(c, w, action)) < Rank(w)
  {
    match action
    case Begin =>
      assert w.outbox + Frames([]) == w.outbox;
      BeginApproachesRest(c, w);
    case Take => TakeApproachesRest(c, w);
    case Decide(yes) => WeightOfFrames(w.outbox, Answer(c, w.me, yes).1);
    case HangUp => WeightOfOne(w.outbox, Disconnect);
    case _ =>
  }

  /** A world that is not at rest has an enabled action that changes it. */
  lemma NotAtRestCanMove(c: Crypto, w: World) returns (step: Step)
    requires !Quiescent(w)
    ensures After(c, w, step) != w
    ensures step.action in {Begin, Take, Decide(true)}
  {
    if w.me.phase.Start? {
      step := Mine(Begin);
    } else if w.peer.phase.Start? {
      step := Theirs(Begin);
    } else if w.me.phase.Ask? {
      step := Mine(Decide(true));
    } else if w.peer.phase.Ask? {
      step := Theirs(Decide(true));
    } else if Waiting(w.me) && w.inbox != [] {
      step := Mine(Take);
      assert |Act(c, w, Take).inbox| < |w.inbox|;
    } else {
      step := Theirs(Take);
      assert |Act(c, Mirror(w), Take).inbox| < |w.outbox|;
    }
  }

  lemma RunSnoc(u: Setup, steps: seq<Step>, step: Step)
    ensures Run(u, steps + [step]) == After(u.crypto, Run(u, steps), step)
  {
  }

  /** Nobody refused and nothing was lost. */
  predicate Hopeful(w: World) {
    !w.lost && w.me.human != Some(false) && w.peer.human != Some(false)
  }

  lemma StaysHopeful(c: Crypto, w: World, action: Action)
    requires Hopeful(w) && action in {Begin, Take, Decide(true)}
    ensures Hopeful(Act(c, w, action))
  {
  }

  /** A helpful step from a hopeful world is hopeful and closer to rest. */
  lemma HelpfulStep(c: Crypto, w: World, step: Step)
    requires Hopeful(w) && step.action in {Begin, Take, Decide(true)} && After(c, w, step) != w
    ensures Hopeful(After(c, w, step)) && Rank(After(c, w, step)) < Rank(w)
  {
    if step.Mine? {
      StaysHopeful(c, w, step.action);
      ActionsApproachRest(c, w, step.action);
    } else {
      StaysHopeful(c, Mirror(w), step.action);
      ActionsApproachRest(c, Mirror(w), step.action);
    }
  }

  /** From any point of any run in which nothing was lost and nobody refused, letting both parties go on and
      both humans agree ends with both trusted. */
  lemma {:induction false} CeremonyCompletes(u: Setup, steps: seq<Step>) returns (all: seq<Step>)
    requires Proper(u) && Hopeful(Run(u, steps))
    ensures steps <= all
    ensures var w := Run(u, all);
            w.me.phase == Trusted && w.peer.phase == Trusted && w.me.session.sas == w.peer.session.sas
    decreases Rank(Run(u, steps))
  {
    var w := Run(u, steps);
    if Quiescent(w) {
      ConsentLeadsToTrust(u, steps);
      all := steps;
    } else {
      var step := NotAtRestCanMove(u.crypto, w);
      RunSnoc(u, steps, step);
      HelpfulStep(u.crypto, w, step);
      all := CeremonyCompletes(u, steps + [step]);
    }
  }

  // ---------- a party driven by `execute_pairing` ----------

  /** Some run of the two parties leads to this world, seen from the initiator's side or from the other. */
  ghost predicate Reachable(u: Setup, w: World, fromInitiator: bool) {
    exists steps :: Run(u, steps) == if fromInitiator then w else Mirror(w)
  }

  lemma OneMoreAction(u: Setup, w: World, side: bool, action: Action)
    requires Reachable(u, w, side)
    ensures Reachable(u, Act(u.crypto, w, action), side)
  {
    var steps :| Run(u, steps) == if side then w else Mirror(w);
    RunSnoc(u, steps, if side then Mine(action) else Theirs(action));
  }

  /** The world once `me` has gone through the first `n` frames of its inbox. */
  function Through(w: World, n: nat, me: Party, out: seq<Frame>): World
    requires n <= |w.inbox|
  {
    w.(me := me, outbox := w.outbox + out, inbox := w.inbox[n..])
  }

  lemma TakeIsTaking(c: Crypto, w: World, n: nat, me: Party, out: seq<Frame>)
    requires n < |w.inbox| && Waiting(me)
    ensures var taken := TakeFrame(c, me, w.inbox[n]);
            Act(c, Through(w, n, me, out), Take) == Through(w, n + 1, taken.0, out + taken.1)
  {
    assert w.inbox[n..][1..] == w.inbox[n + 1..];
    assert w.outbox + out + TakeFrame(c, me, w.inbox[n]).1 == w.outbox + (out + TakeFrame(c, me, w.inbox[n]).1);
  }

  lemma DecideIsAnswering(c: Crypto, w: World, n: nat, me: Party, out: seq<Frame>, yes: bool)
    requires n <= |w.inbox| && me.phase.Ask?
    ensures var answered := Answer(c, me, yes);
            Act(c, Through(w, n, me, out), Decide(yes)) == Through(w, n, answered.0, out + Frames(answered.1))
  {
    assert w.outbox + out + Frames(Answer(c, me, yes).1) == w.outbox + (out + Frames(Answer(c, me, yes).1));
  }

  /** One frame, and the human's answer if it is then asked, are one or two of the party's actions. */
  lemma DriveFrameIsActing(u: Setup, w: World, side: bool, n: nat, me: Party, out: seq<Frame>, human: Human)
    requires n < |w.inbox| && Waiting(me) && Reachable(u, Through(w, n, me, out), side)
    ensures var driven := DriveFrame(u.crypto, me, human, w.inbox[n]);
            Reachable(u, Through(w, n + 1, driven.0, out + driven.1), side)
  {
    var taken := TakeFrame(u.crypto, me, w.inbox[n]);
    OneMoreAction(u, Through(w, n, me, out), side, Take);
    TakeIsTaking(u.crypto, w, n, me, out);
    if taken.0.phase.Ask? && taken.0.session.sas.Some? {
      var yes := human(taken.0.session.sas.value);
      OneMoreAction(u, Through(w, n + 1, taken.0, out + taken.1), side, Decide(yes));
      DecideIsAnswering(u.crypto, w, n + 1, taken.0, out + taken.1, yes);
      var answer := Frames(Answer(u.crypto, taken.0, yes).1);
      assert out + taken.1 + answer == out + (taken.1 + answer);
    }
  }

  lemma DriveOn(u: Setup, w: World, side: bool, n: nat, p: Party, sent: seq<Frame>, human: Human)
    returns (me: Party, out: seq<Frame>)
    requires n < |w.inbox| && Waiting(p) && Reachable(u, Through(w, n, p, sent), side)
    requires DrivesTo(u.crypto, w.me, human, w.inbox, n, p, sent)
    ensures DrivesTo(u.crypto, w.me, human, w.inbox, n + 1, me, out) && Reachable(u, Through(w, n + 1, me, out), side)
  {
    DriveFrameIsActing(u, w, side, n, p, sent, human);
    DriveOne(u.crypto, w.me, human, w.inbox, n, p, sent);
    var driven := DriveFrame(u.crypto, p, human, w.inbox[n]);
    me, out := driven.0, sent + driven.1;
  }

  /** Driving a party over the frames in its inbox, for as long as it waits for one, is a run of the two parties. So
      what `execute_pairing` does to its party is covered by every result about runs. */
  lemma {:induction false} DrivingIsARun(u: Setup, w: World, side: bool, human: Human, n: nat)
    returns (me: Party, out: seq<Frame>)
    requires Reachable(u, w, side) && WaitsUpTo(u.crypto, w.me, human, w.inbox, n)
    ensures DrivesTo(u.crypto, w.me, human, w.inbox, n, me, out)
    ensures Reachable(u, Through(w, n, me, out), side)
  {
    if n == 0 {
      me, out := w.me, [];
      DriveNone(u.crypto, w.me, human, w.inbox);
      assert Through(w, 0, w.me, []) == w;
    } else {
      WaitedBefore(u.crypto, w.me, human, w.inbox, n);
      me, out := DrivingIsARun(u, w, side, human, n - 1);
      me, out := DriveOn(u, w, side, n - 1, me, out, human);
    }
  }
}
