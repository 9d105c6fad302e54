/**
 The stop-and-wait file transfer protocol, one side at a time: the receive loop of tools/bridge-cli/src/node.rs and
 the send loop of tools/bridge-cli/src/client.rs, each as a message handler and as the loop that runs it.
 */
module TransferProtocol {
  import opened Common
  import opened Chunks
  import opened Receiver
  import opened Sender

  datatype Message =
    | Offer(manifest: Manifest)
    | Accept(fileId: string, startChunk: nat)
    | Data(chunk: FileChunk)
    | Ack(fileId: string, chunkIndex: nat)
    | Finished(fileId: string, rootHash: Digest)
    | Complete(fileId: string)
    | Cancel(fileId: string)
    /** Any frame that is not a decodable transfer message. */
    | NotTransfer

  // ---------- receiving side ----------

  datatype ReceiverPhase = Closed | Waiting | Receiving(manifest: Manifest, received: set<nat>)

  datatype ReceiverOut = ReceiverOut(files: map<string, Bytes>, phase: ReceiverPhase, replies: seq<Message>)

  /** One inbound message. `Closed` in the result is the code's `bail!`. */
  function ReceiverHandle(hash: Bytes -> Digest, files: map<string, Bytes>, phase: ReceiverPhase,
                          msg: Message): ReceiverOut {
    match phase
    case Closed => ReceiverOut(files, Closed, [])
    case Waiting =>
      if !msg.Offer? then ReceiverOut(files, Waiting, [])
      else
        var m, part := msg.manifest, PartPath(msg.manifest);
        var k := ResumePoint(m, Existing(files, part));
        ReceiverOut(files[part := Resumed(m, Existing(files, part))], Receiving(m, Below(k)), [Accept(m.fileId, k)])
    case Receiving(m, received) =>
      var part := PartPath(m);
      match msg
      case Data(c) =>
        if CheckChunk(hash, m, c).Some? then ReceiverOut(files, Closed, [])
        else ReceiverOut(files[part := WriteAt(Existing(files, part), c.offset, c.data)],
                         Receiving(m, received + {c.index}), [Ack(m.fileId, c.index)])
      case Finished(id, root) =>
        if id != m.fileId || root != m.rootHash || !IsComplete(m, received)
           || part !in files || hash(files[part]) != m.rootHash
        then ReceiverOut(files, Closed, [])
        else ReceiverOut(Renamed(files, part, m.filename), Waiting, [Complete(m.fileId)])
      case _ => ReceiverOut(files, Closed, [])
  }

  function ReceiverRun(hash: Bytes -> Digest, files: map<string, Bytes>, phase: ReceiverPhase,
                       inbound: seq<Message>): ReceiverOut
    decreases |inbound|
  {
    if inbound == [] then ReceiverOut(files, phase, [])
    else
      var before := ReceiverRun(hash, files, phase, inbound[..|inbound| - 1]);
      var last := ReceiverHandle(hash, before.files, before.phase, inbound[|inbound| - 1]);
      last.(replies := before.replies + last.replies)
  }

  lemma ReceiverRunSnoc(hash: Bytes -> Digest, files: map<string, Bytes>, phase: ReceiverPhase, inbound: seq<Message>,
                        msg: Message)
    ensures ReceiverRun(hash, files, phase, inbound + [msg]) ==
            var before := ReceiverRun(hash, files, phase, inbound);
            var last := ReceiverHandle(hash, before.files, before.phase, msg);
            last.(replies := before.replies + last.replies)
  {
  }

  /** The messages, taken one after another from a waiting receiver, lead to `out`. */
  ghost predicate LeadsTo(hash: Bytes -> Digest, files: map<string, Bytes>, inbound: seq<Message>, out: ReceiverOut) {
    ReceiverRun(hash, files, Waiting, inbound) == out
  }

  lemma OneMoreMessage(hash: Bytes -> Digest, files: map<string, Bytes>, inbound: seq<Message>, out: ReceiverOut,
                       msg: Message)
    requires LeadsTo(hash, files, inbound, out)
    ensures var next := ReceiverHandle(hash, out.files, out.phase, msg);
            LeadsTo(hash, files, inbound + [msg], next.(replies := out.replies + next.replies))
  {
    ReceiverRunSnoc(hash, files, Waiting, inbound, msg);
  }

  datatype Served = Continue | Finalized | Bailed

  /** One turn of the receive loop. */
  method ServeMessage(receiver: FileReceiver, msg: Message) returns (replies: seq<Message>, status: Served)
    requires receiver.Valid() && receiver.openPath == PartPath(receiver.manifest)
    modifies receiver, receiver.dir
    ensures var out := ReceiverHandle(receiver.hash, old(receiver.dir.files),
                                      Receiving(receiver.manifest, old(receiver.received)), msg);
            && receiver.dir.files == out.files && replies == out.replies
            && match status
               case Continue =>
                 && out.phase == Receiving(receiver.manifest, receiver.received)
                 && receiver.Valid() && receiver.openPath == PartPath(receiver.manifest)
               case Finalized => out.phase == Waiting
               case Bailed => out.phase == Closed
  {
    var m := receiver.manifest;
    match msg
    case Data(c) =>
      var r := receiver.ReceiveChunk(c);
      if r.Err? {
        return [], Bailed;
      }
      return [Ack(m.fileId, c.index)], Continue;
    case Finished(id, root) =>
      if id != m.fileId || root != m.rootHash {
        return [], Bailed;
      }
      var r := receiver.FinalizeFile();
      if r.Err? {
        return [], Bailed;
      }
      return [Complete(m.fileId)], Finalized;
    case _ =>
      return [], Bailed;
  }

  /** Answering an offer. */
  method AcceptOffer(dir: Directory, hash: Bytes -> Digest, manifest: Manifest)
    returns (receiver: FileReceiver, replies: seq<Message>)
    modifies dir
    ensures fresh(receiver) && receiver.dir == dir && receiver.manifest == manifest && receiver.hash == hash
    ensures receiver.Valid() && receiver.openPath == PartPath(manifest)
    ensures ReceiverHandle(hash, old(dir.files), Waiting, Offer(manifest)) ==
            ReceiverOut(dir.files, Receiving(manifest, receiver.received), replies)
  {
    ghost var k := ResumePoint(manifest, Existing(dir.files, PartPath(manifest)));
    receiver := new FileReceiver(dir, manifest, hash);
    var start := receiver.NextExpectedChunk();
    NextOfPrefix(manifest, receiver.received, start, k);
    replies := [Accept(manifest.fileId, start)];
  }

  /** `handle_file_transfer` on an `Offer`: answer it, then serve frames until the transfer completes,
      something unexpected arrives or the sender hangs up. What it did to the directory and what it
      sent is exactly the run of `ReceiverHandle` over the frames it consumed. */
  method HandleFileTransfer(dir: Directory, hash: Bytes -> Digest, manifest: Manifest, inbound: seq<Message>)
    returns (replies: seq<Message>, consumed: nat, ok: bool)
    modifies dir
    ensures consumed <= |inbound|
    ensures var out := ReceiverRun(hash, old(dir.files), Waiting, [Offer(manifest)] + inbound[..consumed]);
            && dir.files == out.files
            && replies == out.replies
            && (ok <==> out.phase.Waiting?)
            && (!ok ==> out.phase.Closed? || consumed == |inbound|)
  {
    ghost var files0 := dir.files;
    ghost var seen := [] + [Offer(manifest)];
    OneMoreMessage(hash, files0, [], ReceiverOut(files0, Waiting, []), Offer(manifest));
    var receiver;
    receiver, replies := AcceptOffer(dir, hash, manifest);
    assert [] + replies == replies;
    consumed, ok := 0, false;
    while consumed < |inbound|
      invariant consumed <= |inbound| && seen == [Offer(manifest)] + inbound[..consumed] && !ok
      invariant receiver.Valid() && receiver.dir == dir && receiver.manifest == manifest && receiver.hash == hash
      invariant fresh(receiver) && receiver.openPath == PartPath(manifest)
      invariant LeadsTo(hash, files0, seen, ReceiverOut(dir.files, Receiving(manifest, receiver.received), replies))
    {
      var msg := inbound[consumed];
      consumed := consumed + 1;
      OneMoreMessage(hash, files0, seen, ReceiverOut(dir.files, Receiving(manifest, receiver.received), replies), msg);
      seen := seen + [msg];
      assert seen == [Offer(manifest)] + inbound[..consumed];
      var answer, status := ServeMessage(receiver, msg);
      replies := replies + answer;
      if status != Continue {
        ok := status == Finalized;
        return;
      }
    }
  }

  lemma NextOfPrefix(m: Manifest, received: set<nat>, next: nat, k: nat)
    requires received == Below(k) && k <= m.totalChunks
    requires next <= m.totalChunks && Below(next) <= received
    requires next < m.totalChunks ==> next !in received
    ensures next == k
  {
  }

  // ---------- sending side ----------

  /** The file being sent: its bytes, and the manifest computed from them. */
  datatype Scenario = Scenario(hash: Bytes -> Digest, manifest: Manifest, source: Bytes)

  ghost predicate Good(sc: Scenario) {
    && WellFormed(sc.manifest)
    && |sc.source| == sc.manifest.totalSize
    && sc.manifest.rootHash == sc.hash(sc.source)
  }

  datatype SenderPhase = Idle | AwaitAccept | AwaitAck(index: nat) | AwaitComplete | Done | Failed

  datatype SenderOut = SenderOut(phase: SenderPhase, sends: seq<Message>)

  /** What the sender emits once chunks below `next` are acknowledged. */
  function Emit(sc: Scenario, next: nat): Message
    requires |sc.source| == sc.manifest.totalSize
  {
    if next < sc.manifest.totalChunks then Data(ChunkAt(sc.hash, sc.manifest, sc.source, next))
    else Finished(sc.manifest.fileId, sc.manifest.rootHash)
  }

  function Advance(sc: Scenario, next: nat): SenderOut
    requires |sc.source| == sc.manifest.totalSize
  {
    SenderOut(if next < sc.manifest.totalChunks then AwaitAck(next) else AwaitComplete, [Emit(sc, next)])
  }

  /** One inbound message; `Failed` is the code's `bail!`. */
  function SenderHandle(sc: Scenario, phase: SenderPhase, msg: Message): SenderOut
    requires |sc.source| == sc.manifest.totalSize
  {
    var m := sc.manifest;
    match phase
    case AwaitAccept =>
      if msg.Accept? && msg.fileId == m.fileId && msg.startChunk <= m.totalChunks
      then Advance(sc, msg.startChunk) else SenderOut(Failed, [])
    case AwaitAck(index) =>
      if msg.Ack? && msg.fileId == m.fileId && msg.chunkIndex == index
      then Advance(sc, index + 1) else SenderOut(Failed, [])
    case AwaitComplete =>
      if msg.Complete? && msg.fileId == m.fileId then SenderOut(Done, []) else SenderOut(Failed, [])
    case _ => SenderOut(phase, [])
  }

  function SenderRun(sc: Scenario, phase: SenderPhase, inbound: seq<Message>): SenderOut
    requires |sc.source| == sc.manifest.totalSize
    decreases |inbound|
  {
    if inbound == [] then SenderOut(phase, [])
    else
      var before := SenderRun(sc, phase, inbound[..|inbound| - 1]);
      var last := SenderHandle(sc, before.phase, inbound[|inbound| - 1]);
      last.(sends := before.sends + last.sends)
  }

  lemma {:induction false} SenderRunStuck(sc: Scenario, phase: SenderPhase, n: nat, inbound: seq<Message>)
    requires |sc.source| == sc.manifest.totalSize
    requires n <= |inbound| && SenderRun(sc, phase, inbound[..n]).phase in {Done, Failed}
    ensures SenderRun(sc, phase, inbound) == SenderRun(sc, phase, inbound[..n])
    decreases |inbound|
  {
    if n == |inbound| {
      assert inbound[..n] == inbound;
    } else {
      var init := inbound[..|inbound| - 1];
      assert init[..n] == inbound[..n];
      SenderRunStuck(sc, phase, n, init);
    }
  }

  /** The messages a sender emits for the indices from `start` up to, but not including, `upto`. */
  function Emits(sc: Scenario, start: nat, upto: nat): seq<Message>
    requires |sc.source| == sc.manifest.totalSize && start <= upto
  {
    seq(upto - start, i requires 0 <= i < upto - start => Emit(sc, start + i))
  }

  /** The replies that move a sender from `start` to the point where chunks below `next` are acknowledged. */
  function Replies(sc: Scenario, start: nat, next: nat): seq<Message>
    requires start <= next
  {
    [Accept(sc.manifest.fileId, start)] +
    seq(next - start, i requires 0 <= i < next - start => Ack(sc.manifest.fileId, start + i))
  }

  lemma RepliesSnoc(sc: Scenario, start: nat, next: nat)
    requires start <= next
    ensures Replies(sc, start, next + 1) == Replies(sc, start, next) + [Ack(sc.manifest.fileId, next)]
    ensures |Replies(sc, start, next)| == next - start + 1
  {
  }

  lemma EmitsSnoc(sc: Scenario, start: nat, upto: nat)
    requires |sc.source| == sc.manifest.totalSize && start <= upto
    ensures Emits(sc, start, upto + 1) == Emits(sc, start, upto) + [Emit(sc, upto)]
  {
  }

  lemma SenderRunStep(sc: Scenario, inbound: seq<Message>, msg: Message, before: SenderOut, last: SenderOut)
    requires |sc.source| == sc.manifest.totalSize
    requires SenderRun(sc, AwaitAccept, inbound) == before && SenderHandle(sc, before.phase, msg) == last
    ensures SenderRun(sc, AwaitAccept, inbound + [msg]) == SenderOut(last.phase, before.sends + last.sends)
  {
  }

  ghost predicate StandsAt(sc: Scenario, inbound: seq<Message>, start: nat, next: nat)
    requires |sc.source| == sc.manifest.totalSize && start <= next
  {
    var out := SenderRun(sc, AwaitAccept, inbound);
    && out.phase == (if next < sc.manifest.totalChunks then AwaitAck(next) else AwaitComplete)
    && out.sends == Emits(sc, start, next + 1)
  }

  lemma AcceptStands(sc: Scenario, start: nat)
    requires |sc.source| == sc.manifest.totalSize && start <= sc.manifest.totalChunks
    ensures StandsAt(sc, [Accept(sc.manifest.fileId, start)], start, start)
  {
  }

  lemma AckStands(sc: Scenario, inbound: seq<Message>, start: nat, next: nat)
    requires |sc.source| == sc.manifest.totalSize && start <= next < sc.manifest.totalChunks
    requires StandsAt(sc, inbound, start, next)
    ensures StandsAt(sc, inbound + [Ack(sc.manifest.fileId, next)], start, next + 1)
  {
    var before := SenderOut(AwaitAck(next), Emits(sc, start, next + 1));
    SenderRunStep(sc, inbound, Ack(sc.manifest.fileId, next), before, Advance(sc, next + 1));
    EmitsSnoc(sc, start, next + 1);
  }

  /** The honest replies bring the sender exactly to the next index. */
  lemma {:induction false} RunOfReplies(sc: Scenario, start: nat, next: nat, inbound: seq<Message>)
    requires |sc.source| == sc.manifest.totalSize && start <= next <= sc.manifest.totalChunks
    requires inbound == Replies(sc, start, next)
    ensures StandsAt(sc, inbound, start, next)
  {
    if next == start {
      AcceptStands(sc, start);
      assert inbound == [Accept(sc.manifest.fileId, start)];
    } else {
      var last := next - 1;
      var before := Replies(sc, start, last);
      RepliesSnoc(sc, start, last);
      RunOfReplies(sc, start, last, before);
      AckStands(sc, before, start, last);
    }
  }

  /** Is this frame the completion notice for a file that has been sent in full? */
  ghost predicate Succeeds(sc: Scenario, next: nat, msg: Message) {
    next == sc.manifest.totalChunks && msg == Complete(sc.manifest.fileId)
  }

  lemma LastFrameEnds(sc: Scenario, inbound: seq<Message>, start: nat, next: nat, msg: Message)
    requires |sc.source| == sc.manifest.totalSize && start <= next <= sc.manifest.totalChunks
    requires StandsAt(sc, inbound, start, next)
    requires next == sc.manifest.totalChunks || msg != Ack(sc.manifest.fileId, next)
    ensures SenderRun(sc, AwaitAccept, inbound + [msg]) ==
            SenderOut(if Succeeds(sc, next, msg) then Done else Failed, Emits(sc, start, next + 1))
  {
    var before := SenderRun(sc, AwaitAccept, inbound);
    SenderRunStep(sc, inbound, msg, before, SenderHandle(sc, before.phase, msg));
    assert before.sends + [] == before.sends;
  }

  lemma RunEndsAt(sc: Scenario, start: nat, next: nat, n: nat, inbound: seq<Message>)
    requires |sc.source| == sc.manifest.totalSize && start <= next <= sc.manifest.totalChunks
    requires n < |inbound| && StandsAt(sc, inbound[..n], start, next)
    requires next == sc.manifest.totalChunks || inbound[n] != Ack(sc.manifest.fileId, next)
    ensures SenderRun(sc, AwaitAccept, inbound) ==
            SenderOut(if Succeeds(sc, next, inbound[n]) then Done else Failed, Emits(sc, start, next + 1))
  {
    LastFrameEnds(sc, inbound[..n], start, next, inbound[n]);
    assert inbound[..n] + [inbound[n]] == inbound[..n + 1];
    SenderRunStuck(sc, AwaitAccept, n + 1, inbound);
  }

  /** A frame other than the acknowledgement awaited ends the run: as success if it is the completion notice for
      a file that has been sent in full, as failure otherwise. */
  lemma RunEndsAfterReplies(sc: Scenario, start: nat, next: nat, inbound: seq<Message>)
    requires |sc.source| == sc.manifest.totalSize && start <= next <= sc.manifest.totalChunks
    requires |inbound| > next - start + 1 && inbound[..next - start + 1] == Replies(sc, start, next)
    requires next == sc.manifest.totalChunks || inbound[next - start + 1] != Ack(sc.manifest.fileId, next)
    ensures SenderRun(sc, AwaitAccept, inbound) ==
            SenderOut(if Succeeds(sc, next, inbound[next - start + 1]) then Done else Failed,
                      Emits(sc, start, next + 1))
  {
    RunOfReplies(sc, start, next, Replies(sc, start, next));
    RunEndsAt(sc, start, next, next - start + 1, inbound);
  }

  lemma RunEndsAtOnce(sc: Scenario, inbound: seq<Message>)
    requires |sc.source| == sc.manifest.totalSize && inbound != []
    requires var msg := inbound[0];
             !msg.Accept? || msg.fileId != sc.manifest.fileId || msg.startChunk > sc.manifest.totalChunks
    ensures SenderRun(sc, AwaitAccept, inbound) == SenderOut(Failed, [])
  {
  }

  /** Reading the next chunk of the scenario's own file never fails. */
  method ReadChunk(sc: Scenario, sender: FileSender) returns (chunk: FileChunk)
    requires WellFormed(sc.manifest) && |sc.source| == sc.manifest.totalSize
    requires sender.manifest == sc.manifest && sender.hash == sc.hash && sender.source == sc.source
    requires sender.Aligned() && sender.currentChunk < sc.manifest.totalChunks
    modifies sender
    ensures sender.Aligned() && sender.currentChunk == old(sender.currentChunk) + 1
    ensures chunk.index == old(sender.currentChunk) && Data(chunk) == Emit(sc, old(sender.currentChunk))
  {
    var next := sender.NextChunk();
    chunk := next.value.value;
  }

  /** The chunk `next` has been sent and the acknowledgement that would follow is missing or something else. */
  ghost predicate StoppedAt(sc: Scenario, inbound: seq<Message>, sent: seq<Message>, start: nat, next: nat)
    requires |sc.source| == sc.manifest.totalSize
  {
    && start <= next < sc.manifest.totalChunks && sent == Emits(sc, start, next + 1)
    && next - start + 1 <= |inbound| && inbound[..next - start + 1] == Replies(sc, start, next)
    && (|inbound| == next - start + 1 || inbound[next - start + 1] != Ack(sc.manifest.fileId, next))
  }

  /** The chunk loop of `run_send_file`: one chunk, one acknowledgement, until the sender runs out of chunks, the
      peer's frames run out or one of them is not the acknowledgement awaited. */
  method StreamChunks(sc: Scenario, sender: FileSender, inbound: seq<Message>)
    returns (sent: seq<Message>, pos: nat, streamed: bool)
    requires WellFormed(sc.manifest) && |sc.source| == sc.manifest.totalSize && inbound != []
    requires sender.manifest == sc.manifest && sender.hash == sc.hash && sender.source == sc.source
    requires sender.Aligned() && sender.currentChunk <= sc.manifest.totalChunks
    requires inbound[0] == Accept(sc.manifest.fileId, sender.currentChunk)
    modifies sender
    ensures var start, total := old(sender.currentChunk), sc.manifest.totalChunks;
            if streamed then
              && sent == Emits(sc, start, total)
              && pos == total - start + 1 <= |inbound| && inbound[..pos] == Replies(sc, start, total)
            else
              (exists next :: StoppedAt(sc, inbound, sent, start, next))
  {
    ghost var start := sender.currentChunk;
    sent, pos, streamed := [], 1, false;
    while sender.currentChunk < sc.manifest.totalChunks
      invariant sender.Aligned() && start <= sender.currentChunk <= sc.manifest.totalChunks
      invariant pos == sender.currentChunk - start + 1 <= |inbound| && !streamed
      invariant inbound[..pos] == Replies(sc, start, sender.currentChunk)
      invariant sent == Emits(sc, start, sender.currentChunk)
      decreases |inbound| - pos
    {
      ghost var index := sender.currentChunk;
      EmitsSnoc(sc, start, index);
      RepliesSnoc(sc, start, index);
      var chunk := ReadChunk(sc, sender);
      sent := sent + [Data(chunk)];
      if pos == |inbound| {
        assert StoppedAt(sc, inbound, sent, start, index);
        return;
      }
      var reply := inbound[pos];
      pos := pos + 1;
      if !reply.Ack? || reply.fileId != sc.manifest.fileId || reply.chunkIndex != chunk.index {
        assert StoppedAt(sc, inbound, sent, start, index);
        return;
      }
      assert inbound[..pos] == inbound[..pos - 1] + [reply];
    }
    streamed := true;
  }

  /** `run_send_file` from the point where the offer has been sent, given the peer's frames in order.
      What it sends and how it ends is exactly the run of `SenderHandle` over those frames; `ok` means
      the peer confirmed completion. */
  method RunSendFile(sc: Scenario, inbound: seq<Message>) returns (sent: seq<Message>, ok: bool)
    requires WellFormed(sc.manifest) && |sc.source| == sc.manifest.totalSize
    ensures SenderRun(sc, AwaitAccept, inbound).sends == sent
    ensures ok <==> SenderRun(sc, AwaitAccept, inbound).phase == Done
  {
    var m := sc.manifest;
    sent, ok := [], false;
    if inbound == [] {
      return;
    }
    var accept := inbound[0];
    if !accept.Accept? || accept.fileId != m.fileId {
      RunEndsAtOnce(sc, inbound);
      return;
    }
    var source := FileSender.Open(m, sc.hash, sc.source, accept.startChunk);
    if source.Err? {
      RunEndsAtOnce(sc, inbound);
      return;
    }
    ghost var start := accept.startChunk;
    var pos, streamed;
    sent, pos, streamed := StreamChunks(sc, source.value, inbound);
    if !streamed {
      ghost var next :| StoppedAt(sc, inbound, sent, start, next);
      RunOutcome(sc, start, next, inbound);
      return;
    }
    EmitsSnoc(sc, start, m.totalChunks);
    RunOutcome(sc, start, m.totalChunks, inbound);
    sent := sent + [Finished(m.fileId, m.rootHash)];
    if pos < |inbound| {
      ok := inbound[pos].Complete? && inbound[pos].fileId == m.fileId;
    }
  }

  lemma RunOutcome(sc: Scenario, start: nat, next: nat, inbound: seq<Message>)
    requires |sc.source| == sc.manifest.totalSize && start <= next <= sc.manifest.totalChunks
    requires |inbound| >= next - start + 1 && inbound[..next - start + 1] == Replies(sc, start, next)
    requires |inbound| == next - start + 1 || next == sc.manifest.totalChunks ||
        inbound[next - start + 1] != Ack(sc.manifest.fileId, next)
    ensures var out := SenderRun(sc, AwaitAccept, inbound);
            && out.sends == Emits(sc, start, next + 1)
            && (out.phase == Done <==> |inbound| > next - start + 1 && next == sc.manifest.totalChunks
                                       && inbound[next - start + 1] == Complete(sc.manifest.fileId))
  {
    if |inbound| == next - start + 1 {
      assert inbound[..|inbound|] == inbound;
      RunOfReplies(sc, start, next, inbound);
    } else {
      RunEndsAfterReplies(sc, start, next, inbound);
    }
  }

  // ---------- any peer ----------

  /** The sender got where it is by exactly these replies, sending exactly these chunks. */
  ghost predicate GotHere(sc: Scenario, inbound: seq<Message>, out: SenderOut, start: nat, next: nat)
    requires |sc.source| == sc.manifest.totalSize
  {
    && start <= next <= sc.manifest.totalChunks
    && inbound == Replies(sc, start, next)
    && out.sends == Emits(sc, start, next + 1)
  }

  /** How a sender in each phase got there. */
  ghost predicate History(sc: Scenario, inbound: seq<Message>, out: SenderOut, start: nat)
    requires |sc.source| == sc.manifest.totalSize
  {
    var total := sc.manifest.totalChunks;
    match out.phase
    case Idle => false
    case AwaitAccept => inbound == [] && out.sends == []
    case AwaitAck(i) => i < total && GotHere(sc, inbound, out, start, i)
    case AwaitComplete => GotHere(sc, inbound, out, start, total)
    case Done =>
      && start <= total && |inbound| > total - start + 1
      && inbound[total - start + 1] == Complete(sc.manifest.fileId)
      && GotHere(sc, inbound[..total - start + 1], out, start, total)
    case Failed => true
  }

  lemma HistoryAdvances(sc: Scenario, inbound: seq<Message>, before: SenderOut, start: nat, msg: Message)
    requires |sc.source| == sc.manifest.totalSize && before.phase.AwaitAck? && History(sc, inbound, before, start)
    ensures var last := SenderHandle(sc, before.phase, msg);
            History(sc, inbound + [msg], last.(sends := before.sends + last.sends), start)
  {
  }

  lemma HistoryOpens(sc: Scenario, msg: Message)
    requires |sc.source| == sc.manifest.totalSize
    ensures History(sc, [msg], SenderHandle(sc, AwaitAccept, msg), if msg.Accept? then msg.startChunk else 0)
  {
  }

  lemma HistoryCloses(sc: Scenario, inbound: seq<Message>, before: SenderOut, start: nat, msg: Message)
    requires |sc.source| == sc.manifest.totalSize && before.phase in {AwaitComplete, Done, Failed}
    requires History(sc, inbound, before, start)
    ensures var last := SenderHandle(sc, before.phase, msg);
            History(sc, inbound + [msg], last.(sends := before.sends + last.sends), start)
  {
  }

  /** Whatever the peer sends, a sender waiting for an acknowledgement has received the acceptance and every
      acknowledgement before it, in order, and nothing else, and has sent exactly those chunks; and it reports
      success only after all of them and a completion notice. */
  lemma {:induction false} SenderHistory(sc: Scenario, inbound: seq<Message>) returns (start: nat)
    requires |sc.source| == sc.manifest.totalSize
    ensures History(sc, inbound, SenderRun(sc, AwaitAccept, inbound), start)
  {
    start := 0;
    if inbound == [] {
    } else {
      var init, msg := inbound[..|inbound| - 1], inbound[|inbound| - 1];
      assert inbound == init + [msg];
      start := SenderHistory(sc, init);
      var before := SenderRun(sc, AwaitAccept, init);
      if before.phase.AwaitAccept? {
        HistoryOpens(sc, msg);
        var last := SenderHandle(sc, AwaitAccept, msg);
        assert [] + last.sends == last.sends && [] + [msg] == [msg];
        start := if msg.Accept? then msg.startChunk else 0;
      } else if before.phase.AwaitAck? {
        HistoryAdvances(sc, init, before, start, msg);
      } else {
        HistoryCloses(sc, init, before, start, msg);
      }
    }
  }

  // ---------- manifests ----------

  /** `create_manifest_from_file`: the root hash is streamed over blocks of any size. For every file within the
      format's bound this gives the scenario the results about runs start from. */
  method CreateManifest(hash: Bytes -> Digest, idOf: Digest -> string, filename: string, source: Bytes)
    returns (m: Manifest)
    ensures m == NewManifest(idOf(hash(source)), filename, |source|, hash(source))
    ensures |source| <= MAX_TOTAL_SIZE <==> Good(Scenario(hash, m, source))
  {
    var fed: Bytes := [];
    var pos := 0;
    while pos < |source|
      invariant 0 <= pos <= |source| && fed == source[..pos]
    {
      var block := Min(CHUNK_SIZE, |source| - pos);
      var n: nat :| 1 <= n <= block;
      fed := fed + source[pos..pos + n];
      pos := pos + n;
    }
    assert fed == source;
    m := NewManifest(idOf(hash(fed)), filename, |source|, hash(fed));
  }
}
