/**
 Whole runs of the transfer protocol: a sender and a receiver joined by two FIFO channels, over any
 number of sessions. Either end may stop at any moment; the receiver may stop half way through an
 operation, leaving on disk whatever prefix of its effect had been written.
 */
module TransferSessions {
  import opened Common
  import opened Chunks
  import opened Receiver
  import opened TransferProtocol

  datatype World = World(
    files: map<string, Bytes>,
    sender: SenderPhase,
    receiver: ReceiverPhase,
    toReceiver: seq<Message>,
    toSender: seq<Message>,
    /** Chunk the current session started from, and the chunks sent in it. */
    start: nat,
    sent: seq<FileChunk>,
    /** Some session's sender has seen `Complete`. */
    completed: bool)

  predicate SenderLive(p: SenderPhase) {
    p.AwaitAccept? || p.AwaitAck? || p.AwaitComplete?
  }

  function ChunksOf(msgs: seq<Message>): seq<FileChunk> {
    if msgs == [] then []
    else if msgs[0].Data? then [msgs[0].chunk] + ChunksOf(msgs[1..])
    else ChunksOf(msgs[1..])
  }

  // ---------- steps ----------

  /** The receiver takes its next message; a receiver that bails drops the connection. */
  function ReceiverTakes(sc: Scenario, w: World): World
    requires w.toReceiver != []
  {
    var out := ReceiverHandle(sc.hash, w.files, w.receiver, w.toReceiver[0]);
    w.(files := out.files,
       receiver := out.phase,
       toReceiver := if out.phase.Closed? then [] else w.toReceiver[1..],
       toSender := if SenderLive(w.sender) then w.toSender + out.replies else w.toSender)
  }

  function SenderTakes(sc: Scenario, w: World): World
    requires |sc.source| == sc.manifest.totalSize && w.toSender != []
  {
    var msg := w.toSender[0];
    var out := SenderHandle(sc, w.sender, msg);
    w.(sender := out.phase,
       toSender := if SenderLive(out.phase) then w.toSender[1..] else [],
       toReceiver := if w.receiver.Closed? then w.toReceiver else w.toReceiver + out.sends,
       start := if w.sender.AwaitAccept? && msg.Accept? then msg.startChunk else w.start,
       sent := w.sent + ChunksOf(out.sends),
       completed := w.completed || out.phase.Done?)
  }

  /** What may be on disk if the receiver dies while handling `msg`: the file opened but not yet cut
      back, any prefix of the chunk written, or the rename done but not yet reported. */
  ghost predicate Torn(sc: Scenario, files: map<string, Bytes>, phase: ReceiverPhase, msg: Message,
                       files': map<string, Bytes>) {
    || files' == files
    || (phase.Waiting? && msg.Offer? &&
        files' == files[PartPath(msg.manifest) := Existing(files, PartPath(msg.manifest))])
    || (phase.Receiving? && msg.Data? && CheckChunk(sc.hash, phase.manifest, msg.chunk).None? &&
        exists j: nat :: j <= |msg.chunk.data| &&
          files' == files[PartPath(phase.manifest) :=
                          WriteAt(Existing(files, PartPath(phase.manifest)), msg.chunk.offset, msg.chunk.data[..j])])
    || (phase.Receiving? && msg.Finished? &&
        files' == ReceiverHandle(sc.hash, files, phase, msg).files)
  }

  datatype Step =
    | Connect
    | TakeAtReceiver
    | TakeAtSender
    | ReceiverDies(left: map<string, Bytes>)
    | ReceiverCloses
    | SenderCloses

  ghost predicate Next(sc: Scenario, w: World, step: Step, w': World)
    requires |sc.source| == sc.manifest.totalSize
  {
    match step
    case Connect =>
      && !SenderLive(w.sender) && w.receiver.Closed?
      && w' == w.(sender := AwaitAccept, receiver := Waiting, toReceiver := [Offer(sc.manifest)], toSender := [],
                  start := 0, sent := [])
    case TakeAtReceiver =>
      && w.toReceiver != [] && !w.receiver.Closed? && w' == ReceiverTakes(sc, w)
    case TakeAtSender =>
      && w.toSender != [] && SenderLive(w.sender) && w' == SenderTakes(sc, w)
    case ReceiverDies(left) =>
      && w.toReceiver != [] && Torn(sc, w.files, w.receiver, w.toReceiver[0], left)
      && w' == w.(files := left, receiver := Closed, toReceiver := [])
    case ReceiverCloses =>
      w' == w.(receiver := Closed, toReceiver := [])
    case SenderCloses =>
      && SenderLive(w.sender) && w' == w.(sender := Failed, toSender := [])
  }

  /** Nothing running; a partial file, if there is one, was left by this same source. */
  ghost predicate Init(sc: Scenario, w: World) {
    && w.sender == Idle && w.receiver == Closed && w.toReceiver == [] && w.toSender == []
    && !w.completed && w.start == 0 && w.sent == []
    && (PartPath(sc.manifest) in w.files ==> w.files[PartPath(sc.manifest)] <= sc.source)
  }

  ghost predicate Follows(sc: Scenario, w: World, w': World)
    requires |sc.source| == sc.manifest.totalSize
  {
    exists step :: Next(sc, w, step, w')
  }

  ghost predicate IsRun(sc: Scenario, run: seq<World>)
    requires |sc.source| == sc.manifest.totalSize
  {
    && run != [] && Init(sc, run[0])
    && forall i :: 0 <= i < |run| - 1 ==> Follows(sc, run[i], run[i + 1])
  }

  // ---------- the invariant ----------

  ghost predicate Delivered(sc: Scenario, w: World) {
    sc.manifest.filename in w.files && w.files[sc.manifest.filename] == sc.source
  }

  /** The receiver has exactly the chunks below `n`, on disk and in its set. */
  ghost predicate HasPrefix(sc: Scenario, w: World, n: nat)
    requires |sc.source| == sc.manifest.totalSize
  {
    && n <= sc.manifest.totalChunks
    && w.receiver == Receiving(sc.manifest, Below(n))
    && PartPath(sc.manifest) in w.files
    && w.files[PartPath(sc.manifest)] == sc.source[..ChunkStart(sc.manifest, n)]
  }

  ghost predicate ReceiverOk(sc: Scenario, w: World)
    requires |sc.source| == sc.manifest.totalSize
  {
    match w.receiver
    case Closed => w.toReceiver == []
    case Waiting => w.toReceiver == [] || w.toReceiver == [Offer(sc.manifest)]
    case Receiving(_, received) =>
      && HasPrefix(sc, w, |received|)
      && (w.toReceiver == [] || w.toReceiver == [Emit(sc, |received|)])
  }

  /** A live receiver has the chunks below `n` and nothing under way. */
  ghost predicate InSync(sc: Scenario, w: World, n: nat)
    requires |sc.source| == sc.manifest.totalSize
  {
    n <= sc.manifest.totalChunks && (w.receiver.Closed? || (HasPrefix(sc, w, n) && w.toReceiver == []))
  }

  /** A live receiver has the chunks below `n` and the next message on its way. */
  ghost predicate Owed(sc: Scenario, w: World, n: nat)
    requires |sc.source| == sc.manifest.totalSize
  {
    w.receiver.Closed? || (HasPrefix(sc, w, n) && w.toReceiver == [Emit(sc, n)])
  }

  ghost predicate SenderOk(sc: Scenario, w: World)
    requires |sc.source| == sc.manifest.totalSize
  {
    var m := sc.manifest;
    match w.sender
    case AwaitAccept =>
      || (w.toSender == [] && (w.receiver.Closed? || (w.receiver.Waiting? && w.toReceiver == [Offer(m)])))
      || (|w.toSender| == 1 && w.toSender[0].Accept? && w.toSender[0].fileId == m.fileId
          && InSync(sc, w, w.toSender[0].startChunk))
    case AwaitAck(i) =>
      && i < m.totalChunks
      && ((w.toSender == [] && Owed(sc, w, i)) || (w.toSender == [Ack(m.fileId, i)] && InSync(sc, w, i + 1)))
    case AwaitComplete =>
      || (w.toSender == [] && Owed(sc, w, m.totalChunks))
      || (w.toSender == [Complete(m.fileId)] && Delivered(sc, w)
          && (w.receiver.Closed? || (w.receiver.Waiting? && w.toReceiver == [])))
    case _ => w.toSender == []
  }

  /** What the session has sent: the honest chunks from its start, without gap or repetition. */
  ghost predicate SentOk(sc: Scenario, w: World)
    requires |sc.source| == sc.manifest.totalSize
  {
    match w.sender
    case AwaitAccept => w.sent == []
    case AwaitAck(i) => w.start <= i && w.sent == ChunksBetween(sc.hash, sc.manifest, sc.source, w.start, i + 1)
    case AwaitComplete =>
      && w.start <= sc.manifest.totalChunks
      && w.sent == ChunksBetween(sc.hash, sc.manifest, sc.source, w.start, sc.manifest.totalChunks)
    case Done =>
      && w.start <= sc.manifest.totalChunks
      && w.sent == ChunksBetween(sc.hash, sc.manifest, sc.source, w.start, sc.manifest.totalChunks)
    case _ => true
  }

  ghost predicate PartIsPrefix(sc: Scenario, files: map<string, Bytes>) {
    PartPath(sc.manifest) in files ==> files[PartPath(sc.manifest)] <= sc.source
  }

  ghost predicate Inv(sc: Scenario, w: World)
    requires |sc.source| == sc.manifest.totalSize
  {
    && PartIsPrefix(sc, w.files)
    && (w.completed ==> Delivered(sc, w))
    && ReceiverOk(sc, w)
    && SenderOk(sc, w)
    && SentOk(sc, w)
  }

  // ---------- receiver lemmas ----------

  /** After a crash that left `n` bytes of the source, the transfer resumes at `n / CHUNK_SIZE`: every full chunk of 64
      KiB is kept and what follows is cut off, be it torn or a short last chunk that was written whole. */
  lemma ResumeAtWholeChunks(sc: Scenario, existing: Bytes)
    requires Good(sc) && existing <= sc.source
    ensures ResumePoint(sc.manifest, existing) == |existing| / CHUNK_SIZE
    ensures ResumePoint(sc.manifest, existing) <= sc.manifest.totalChunks
    ensures Resumed(sc.manifest, existing) == sc.source[..ChunkStart(sc.manifest, |existing| / CHUNK_SIZE)]
  {
  }

  /** A file that is on disk in full is kept in full exactly if its size is a multiple of 64 KiB. Otherwise its short
      last chunk is cut off and sent again. */
  lemma ShortLastChunkIsCut(sc: Scenario)
    requires Good(sc)
    ensures Resumed(sc.manifest, sc.source) == sc.source <==> sc.manifest.totalSize % CHUNK_SIZE == 0
    ensures ResumePoint(sc.manifest, sc.source) ==
            if sc.manifest.totalSize % CHUNK_SIZE == 0 then sc.manifest.totalChunks else sc.manifest.totalChunks - 1
  {
    ResumeAtWholeChunks(sc, sc.source);
    CountIsCeiling(sc.manifest);
    var k := sc.manifest.totalSize / CHUNK_SIZE;
    assert sc.source[..|sc.source|] == sc.source;
    assert |sc.source[..ChunkStart(sc.manifest, k)]| == k * CHUNK_SIZE;
  }

  lemma WriteAtEnd(file: Bytes, data: Bytes)
    ensures WriteAt(file, |file|, data) == file + data
  {
  }

  /** Writing `j` bytes of the next chunk after a whole-chunk prefix extends the prefix by `j` bytes. */
  lemma WriteExtendsPrefix(sc: Scenario, n: nat, j: nat)
    requires Good(sc) && n < sc.manifest.totalChunks
    requires j <= |ChunkBytes(sc.manifest, sc.source, n)|
    ensures ChunkStart(sc.manifest, n) == n * CHUNK_SIZE
    ensures n * CHUNK_SIZE + j <= |sc.source|
    ensures WriteAt(sc.source[..ChunkStart(sc.manifest, n)], n * CHUNK_SIZE, ChunkBytes(sc.manifest, sc.source, n)[..j])
         == sc.source[..n * CHUNK_SIZE + j]
  {
    ChunkGeometry(sc.manifest, n);
    var at, data := n * CHUNK_SIZE, ChunkBytes(sc.manifest, sc.source, n);
    assert data[..j] == sc.source[at..at + j];
    WriteAtEnd(sc.source[..at], data[..j]);
    assert sc.source[..at] + sc.source[at..at + j] == sc.source[..at + j];
  }

  lemma BelowSucc(n: nat)
    ensures Below(n) + {n} == Below(n + 1)
    ensures |Below(n)| == n
  {
    BelowSize(n);
  }

  lemma HonestChunkHandling(sc: Scenario, w: World, n: nat)
    requires Good(sc) && HasPrefix(sc, w, n) && n < sc.manifest.totalChunks
    ensures ReceiverHandle(sc.hash, w.files, w.receiver, Emit(sc, n)) ==
            ReceiverOut(w.files[PartPath(sc.manifest) := sc.source[..ChunkStart(sc.manifest, n + 1)]],
                        Receiving(sc.manifest, Below(n + 1)), [Ack(sc.manifest.fileId, n)])
  {
    var m := sc.manifest;
    BelowSucc(n);
    HonestChunkAccepted(sc.hash, m, sc.source, n);
    var data := ChunkBytes(m, sc.source, n);
    assert data[..|data|] == data;
    WriteExtendsPrefix(sc, n, |data|);
    ChunkGeometry(m, n);
  }

  lemma HonestFinish(sc: Scenario, w: World)
    requires Good(sc) && HasPrefix(sc, w, sc.manifest.totalChunks)
    ensures ReceiverHandle(sc.hash, w.files, w.receiver, Emit(sc, sc.manifest.totalChunks)) ==
            ReceiverOut(Renamed(w.files, PartPath(sc.manifest), sc.manifest.filename), Waiting,
                        [Complete(sc.manifest.fileId)])
    ensures w.files[PartPath(sc.manifest)] == sc.source
  {
    var m := sc.manifest;
    CountIsCeiling(m);
    assert sc.source[..|sc.source|] == sc.source;
    CompleteIsEverything(m, Below(m.totalChunks));
  }

  /** Handling the next honest message never bails: a chunk is written and acknowledged, and the closing
      message always passes the count and the root hash and moves the file into place. */
  lemma HonestHandling(sc: Scenario, w: World, n: nat)
    requires Good(sc) && HasPrefix(sc, w, n)
    ensures var out := ReceiverHandle(sc.hash, w.files, w.receiver, Emit(sc, n));
            if n < sc.manifest.totalChunks then
              && out.phase == Receiving(sc.manifest, Below(n + 1))
              && out.replies == [Ack(sc.manifest.fileId, n)]
              && out.files == w.files[PartPath(sc.manifest) := sc.source[..ChunkStart(sc.manifest, n + 1)]]
            else
              && out.phase == Waiting
              && out.replies == [Complete(sc.manifest.fileId)]
              && w.files[PartPath(sc.manifest)] == sc.source
              && out.files == Renamed(w.files, PartPath(sc.manifest), sc.manifest.filename)
  {
    if n < sc.manifest.totalChunks {
      HonestChunkHandling(sc, w, n);
    } else {
      HonestFinish(sc, w);
    }
  }

  // ---------- preservation ----------

  lemma OfferKeepsInv(sc: Scenario, w: World)
    requires Good(sc) && Inv(sc, w) && w.toReceiver != [] && w.receiver.Waiting?
    ensures Inv(sc, ReceiverTakes(sc, w))
    ensures ReceiverTakes(sc, w).receiver.Receiving?
  {
    var m, part := sc.manifest, PartPath(sc.manifest);
    assert |part| != |m.filename|;
    var existing := Existing(w.files, part);
    var k := |existing| / CHUNK_SIZE;
    ResumeAtWholeChunks(sc, existing);
    BelowSize(k);
    var w' := ReceiverTakes(sc, w);
    assert w.toReceiver[1..] == [];
    assert HasPrefix(sc, w', k);
    assert w'.toSender == if SenderLive(w.sender) then [Accept(m.fileId, k)] else w.toSender;
    assert w.sender.AwaitComplete? ==> w.toSender == [];
  }

  /** While a message is on its way to a receiver that has the chunks below `n`, it is the next one, and a live sender
      waits for the answer to it. */
  lemma MessageOwed(sc: Scenario, w: World, n: nat)
    requires |sc.source| == sc.manifest.totalSize && Inv(sc, w) && HasPrefix(sc, w, n) && w.toReceiver != []
    ensures w.toReceiver == [Emit(sc, n)] && w.toSender == []
    ensures SenderLive(w.sender) ==> w.sender == Advance(sc, n).phase
  {
    BelowSize(n);
    match w.sender
    case AwaitAck(i) => BelowSize(i);
    case AwaitComplete => BelowSize(sc.manifest.totalChunks);
    case _ =>
  }

  lemma ReceiverOkAt(sc: Scenario, w: World, n: nat)
    requires |sc.source| == sc.manifest.totalSize && HasPrefix(sc, w, n)
    requires w.toReceiver == [] || w.toReceiver == [Emit(sc, n)]
    ensures ReceiverOk(sc, w) && PartIsPrefix(sc, w.files)
  {
    BelowSize(n);
  }

  /** The world after the receiver has taken chunk `n`, from its fields. */
  lemma ChunkTakenInv(sc: Scenario, w: World, w': World, n: nat)
    requires |sc.source| == sc.manifest.totalSize && n < sc.manifest.totalChunks &&
        (w.completed ==> Delivered(sc, w)) && SentOk(sc, w')
    requires SenderLive(w.sender) ==> w.sender == AwaitAck(n)
    requires w'.files == w.files[PartPath(sc.manifest) := sc.source[..ChunkStart(sc.manifest, n + 1)]]
    requires w'.receiver == Receiving(sc.manifest, Below(n + 1)) && w'.toReceiver == []
    requires w'.toSender == if SenderLive(w.sender) then [Ack(sc.manifest.fileId, n)] else []
    requires w'.sender == w.sender && w'.completed == w.completed
    ensures Inv(sc, w')
  {
    assert |PartPath(sc.manifest)| != |sc.manifest.filename|;
    assert HasPrefix(sc, w', n + 1);
    ReceiverOkAt(sc, w', n + 1);
    assert w.completed ==> Delivered(sc, w');
  }

  /** The world after the receiver has taken the closing message, from its fields. */
  lemma FinishTakenInv(sc: Scenario, w: World, w': World)
    requires |sc.source| == sc.manifest.totalSize && SentOk(sc, w') &&
        (SenderLive(w.sender) ==> w.sender == AwaitComplete)
    requires PartPath(sc.manifest) in w.files && w.files[PartPath(sc.manifest)] == sc.source
    requires w'.files == Renamed(w.files, PartPath(sc.manifest), sc.manifest.filename)
    requires w'.receiver == Waiting && w'.toReceiver == []
    requires w'.toSender == if SenderLive(w.sender) then [Complete(sc.manifest.fileId)] else []
    requires w'.sender == w.sender && w'.completed == w.completed
    ensures Inv(sc, w')
  {
    assert |PartPath(sc.manifest)| != |sc.manifest.filename|;
    assert Delivered(sc, w');
  }

  lemma MessageKeepsInv(sc: Scenario, w: World)
    requires Good(sc) && Inv(sc, w) && w.toReceiver != [] && w.receiver.Receiving?
    ensures Inv(sc, ReceiverTakes(sc, w))
    ensures !ReceiverTakes(sc, w).receiver.Closed?
  {
    var n := |w.receiver.received|;
    MessageOwed(sc, w, n);
    HonestHandling(sc, w, n);
    if n < sc.manifest.totalChunks {
      ChunkTakenInv(sc, w, ReceiverTakes(sc, w), n);
    } else {
      FinishTakenInv(sc, w, ReceiverTakes(sc, w));
    }
  }

  lemma ReceiverTakesKeepsInv(sc: Scenario, w: World)
    requires Good(sc) && Inv(sc, w) && w.toReceiver != [] && !w.receiver.Closed?
    ensures Inv(sc, ReceiverTakes(sc, w))
    ensures !ReceiverTakes(sc, w).receiver.Closed?
  {
    if w.receiver.Waiting? {
      OfferKeepsInv(sc, w);
    } else {
      MessageKeepsInv(sc, w);
    }
  }

  /** The index the sender moves on to when it takes the message in flight. */
  function NextIndex(w: World): nat
    requires w.sender.AwaitAck? || (w.sender.AwaitAccept? && w.toSender != [] && w.toSender[0].Accept?)
  {
    if w.sender.AwaitAccept? then w.toSender[0].startChunk else w.sender.index + 1
  }

  lemma AdvanceResult(sc: Scenario, w: World)
    requires |sc.source| == sc.manifest.totalSize && Inv(sc, w) && w.toSender != []
    requires w.sender.AwaitAccept? || w.sender.AwaitAck?
    ensures w.toSender[0].Accept? || w.sender.AwaitAck?
    ensures var next := NextIndex(w);
            && InSync(sc, w, next)
            && SenderHandle(sc, w.sender, w.toSender[0]) == Advance(sc, next)
            && w.toSender[1..] == []
  {
  }

  /** What has been sent once the sender has moved on to `next`, from the fields. */
  lemma SentUpTo(sc: Scenario, w: World, start: nat, next: nat, sent: seq<FileChunk>)
    requires |sc.source| == sc.manifest.totalSize && start <= next <= sc.manifest.totalChunks
    requires sent == ChunksBetween(sc.hash, sc.manifest, sc.source, start, next)
    requires w.start == start && w.sender == Advance(sc, next).phase && w.sent == sent + ChunksOf([Emit(sc, next)])
    ensures SentOk(sc, w)
  {
    assert ChunksOf([Emit(sc, next)][1..]) == [];
    ChunksBetweenSnoc(sc.hash, sc.manifest, sc.source, start, next);
  }

  lemma AdvanceSent(sc: Scenario, w: World)
    requires |sc.source| == sc.manifest.totalSize && Inv(sc, w) && w.toSender != []
    requires w.sender.AwaitAccept? || w.sender.AwaitAck?
    ensures SentOk(sc, SenderTakes(sc, w))
  {
    AdvanceResult(sc, w);
    var next := NextIndex(w);
    var start := if w.sender.AwaitAccept? then next else w.start;
    assert w.sent == ChunksBetween(sc.hash, sc.manifest, sc.source, start, next);
    SentUpTo(sc, SenderTakes(sc, w), start, next, w.sent);
  }

  /** The world after the sender has moved on to `next`, from its fields. */
  lemma AdvancedInv(sc: Scenario, w: World, w': World, next: nat)
    requires |sc.source| == sc.manifest.totalSize && Inv(sc, w) && InSync(sc, w, next)
    requires w'.files == w.files && w'.receiver == w.receiver && w'.completed == w.completed
    requires w'.sender == Advance(sc, next).phase && w'.toSender == []
    requires w'.toReceiver == if w.receiver.Closed? then w.toReceiver else w.toReceiver + [Emit(sc, next)]
    requires SentOk(sc, w')
    ensures Inv(sc, w')
  {
    if !w.receiver.Closed? {
      assert HasPrefix(sc, w', next) && w'.toReceiver == [Emit(sc, next)];
      ReceiverOkAt(sc, w', next);
    }
    assert Owed(sc, w', next);
  }

  lemma CompletedInv(sc: Scenario, w: World)
    requires |sc.source| == sc.manifest.totalSize && Inv(sc, w) && w.toSender != [] && w.sender.AwaitComplete?
    ensures Inv(sc, SenderTakes(sc, w)) && SenderTakes(sc, w).sender.Done?
  {
    assert w.toSender == [Complete(sc.manifest.fileId)];
  }

  lemma SenderTakesKeepsInv(sc: Scenario, w: World)
    requires |sc.source| == sc.manifest.totalSize && Inv(sc, w) && w.toSender != [] && SenderLive(w.sender)
    ensures Inv(sc, SenderTakes(sc, w))
    ensures SenderTakes(sc, w).sender != Failed
  {
    if w.sender.AwaitComplete? {
      CompletedInv(sc, w);
    } else {
      AdvanceResult(sc, w);
      AdvanceSent(sc, w);
      AdvancedInv(sc, w, SenderTakes(sc, w), NextIndex(w));
    }
  }

  lemma TornWrite(sc: Scenario, w: World, n: nat, left: map<string, Bytes>) returns (j: nat)
    requires Good(sc) && HasPrefix(sc, w, n) && left != w.files && Torn(sc, w.files, w.receiver, Emit(sc, n), left)
    requires n < sc.manifest.totalChunks
    ensures n * CHUNK_SIZE + j <= |sc.source|
    ensures left == w.files[PartPath(sc.manifest) := sc.source[..n * CHUNK_SIZE + j]]
  {
    var part, c := PartPath(sc.manifest), Emit(sc, n).chunk;
    j :| j <= |c.data| && left == w.files[part := WriteAt(Existing(w.files, part), c.offset, c.data[..j])];
    WriteExtendsPrefix(sc, n, j);
  }

  /** A receiver that dies leaves a prefix of the source, and what was delivered stays. */
  lemma TornFiles(sc: Scenario, w: World, left: map<string, Bytes>)
    requires Good(sc) && PartIsPrefix(sc, w.files) && ReceiverOk(sc, w)
    requires w.toReceiver != [] && Torn(sc, w.files, w.receiver, w.toReceiver[0], left)
    ensures PartIsPrefix(sc, left)
    ensures Delivered(sc, w) ==> Delivered(sc, w.(files := left))
  {
    assert |PartPath(sc.manifest)| != |sc.manifest.filename|;
    if left != w.files && w.receiver.Receiving? {
      var n := |w.receiver.received|;
      if n < sc.manifest.totalChunks {
        var j := TornWrite(sc, w, n, left);
      } else {
        HonestFinish(sc, w);
      }
    }
  }

  lemma DeadReceiverInv(sc: Scenario, w: World, left: map<string, Bytes>)
    requires |sc.source| == sc.manifest.totalSize && Inv(sc, w) && PartIsPrefix(sc, left)
    requires Delivered(sc, w) ==> Delivered(sc, w.(files := left))
    ensures Inv(sc, w.(files := left, receiver := Closed, toReceiver := []))
  {
  }

  lemma TornKeepsInv(sc: Scenario, w: World, left: map<string, Bytes>)
    requires Good(sc) && Inv(sc, w)
    requires w.toReceiver != [] && Torn(sc, w.files, w.receiver, w.toReceiver[0], left)
    ensures Inv(sc, w.(files := left, receiver := Closed, toReceiver := []))
  {
    TornFiles(sc, w, left);
    DeadReceiverInv(sc, w, left);
  }

  lemma StepKeepsInv(sc: Scenario, w: World, step: Step, w': World)
    requires Good(sc) && Inv(sc, w) && Next(sc, w, step, w')
    ensures Inv(sc, w')
  {
    match step
    case Connect =>
    case TakeAtReceiver => ReceiverTakesKeepsInv(sc, w);
    case TakeAtSender => SenderTakesKeepsInv(sc, w);
    case ReceiverDies(left) => TornKeepsInv(sc, w, left);
    case ReceiverCloses =>
    case SenderCloses =>
  }

  lemma {:induction false} RunKeepsInv(sc: Scenario, run: seq<World>, i: nat)
    requires Good(sc) && IsRun(sc, run) && i < |run|
    ensures Inv(sc, run[i])
  {
    if i == 0 {
    } else {
      RunKeepsInv(sc, run, i - 1);
      var step :| Next(sc, run[i - 1], step, run[i]);
      StepKeepsInv(sc, run[i - 1], step, run[i]);
    }
  }

  // ---------- main results ----------

  /** Safety over every run: any number of sessions, each cut off anywhere. The partial file is always a
      prefix of the source; once any sender has seen `Complete`, the renamed file is the source; no
      message ever makes either side bail, so in particular the root-hash check never fails; and a
      finished session has sent exactly the chunks from its start to the end. */
  lemma TransferSafety(sc: Scenario, run: seq<World>, i: nat)
    requires Good(sc) && IsRun(sc, run) && i < |run|
    ensures PartIsPrefix(sc, run[i].files)
    ensures run[i].completed ==> Delivered(sc, run[i])
    ensures run[i].toReceiver != [] && !run[i].receiver.Closed? ==> !ReceiverTakes(sc, run[i]).receiver.Closed?
    ensures run[i].toSender != [] && SenderLive(run[i].sender) ==> SenderTakes(sc, run[i]).sender != Failed
    ensures run[i].sender.Done? ==>
              && run[i].start <= sc.manifest.totalChunks
              && Payload(run[i].sent) == sc.source[ChunkStart(sc.manifest, run[i].start)..]
  {
    var w := run[i];
    RunKeepsInv(sc, run, i);
    if w.toReceiver != [] && !w.receiver.Closed? {
      ReceiverTakesKeepsInv(sc, w);
    }
    if w.toSender != [] && SenderLive(w.sender) {
      SenderTakesKeepsInv(sc, w);
    }
    if w.sender.Done? {
      ChunksFromCoverTheRest(sc.hash, sc.manifest, sc.source, w.start);
    }
  }

  /** Whole chunks of the partial file. */
  function WholeChunks(sc: Scenario, files: map<string, Bytes>): nat {
    |Existing(files, PartPath(sc.manifest))| / CHUNK_SIZE
  }

  /** No step of any run, crashes included, loses a whole chunk that is on disk: the partial file goes away
      only by becoming the delivered file. */
  lemma WholeChunksAreNeverLost(sc: Scenario, w: World, step: Step, w': World)
    requires Good(sc) && Inv(sc, w) && Next(sc, w, step, w')
    requires PartPath(sc.manifest) in w.files
    ensures if PartPath(sc.manifest) in w'.files then WholeChunks(sc, w'.files) >= WholeChunks(sc, w.files)
            else Delivered(sc, w')
  {
    var m, part := sc.manifest, PartPath(sc.manifest);
    assert |part| != |m.filename|;
    if (step.TakeAtReceiver? || step.ReceiverDies?) && w'.files != w.files {
      if w.receiver.Waiting? {
        ResumeAtWholeChunks(sc, w.files[part]);
        assert WholeChunks(sc, w.files) * CHUNK_SIZE <= m.totalSize;
      } else {
        var n := |w.receiver.received|;
        HonestHandling(sc, w, n);
        if n < m.totalChunks {
          ChunkGeometry(m, n);
          assert |w.files[part]| == n * CHUNK_SIZE;
          if step.ReceiverDies? {
            var c := w.toReceiver[0].chunk;
            var j: nat :| j <= |c.data|
              && w'.files == w.files[part := WriteAt(Existing(w.files, part), c.offset, c.data[..j])];
            WriteExtendsPrefix(sc, n, j);
          }
        }
      }
    }
  }

  /** A session with both ends alive. */
  ghost predicate Engaged(sc: Scenario, w: World)
    requires |sc.source| == sc.manifest.totalSize
  {
    Inv(sc, w) && SenderLive(w.sender) && !w.receiver.Closed?
  }

  /** Messages still to be taken before the session is over. */
  function Rank(sc: Scenario, w: World): nat {
    var total := sc.manifest.totalChunks;
    if w.toReceiver != [] then
      match w.toReceiver[0]
      case Offer(_) => 2 * total + 4
      case Data(c) => if c.index < total then 2 * (total - c.index) + 2 else 0
      case _ => 2
    else if w.toSender != [] then
      match w.toSender[0]
      case Accept(_, k) => if k <= total then 2 * (total - k) + 3 else 0
      case Ack(_, i) => if i < total then 2 * (total - i - 1) + 3 else 0
      case _ => 1
    else 0
  }

  /** The chunk the session starts, or started, from. */
  function StartPoint(sc: Scenario, w: World): nat {
    if !w.sender.AwaitAccept? then w.start
    else if w.toSender != [] && w.toSender[0].Accept? then w.toSender[0].startChunk
    else WholeChunks(sc, w.files)
  }

  lemma EngagedHasOneMessage(sc: Scenario, w: World)
    requires |sc.source| == sc.manifest.totalSize && Engaged(sc, w)
    ensures (|w.toReceiver| == 1 && w.toSender == []) || (w.toReceiver == [] && |w.toSender| == 1)
  {
  }

  lemma OfferProgress(sc: Scenario, w: World)
    requires Good(sc) && Engaged(sc, w) && w.toReceiver != [] && w.receiver.Waiting?
    ensures var w' := ReceiverTakes(sc, w);
            && Engaged(sc, w') && Rank(sc, w') < Rank(sc, w) && StartPoint(sc, w') == StartPoint(sc, w)
  {
    EngagedHasOneMessage(sc, w);
    OfferKeepsInv(sc, w);
    ResumeAtWholeChunks(sc, Existing(w.files, PartPath(sc.manifest)));
    var w' := ReceiverTakes(sc, w);
    assert w'.toReceiver == [] && w'.toSender == [Accept(sc.manifest.fileId, WholeChunks(sc, w.files))];
  }

  lemma MessageRank(sc: Scenario, w: World, n: nat)
    requires Good(sc) && HasPrefix(sc, w, n) && w.toReceiver == [Emit(sc, n)] && w.toSender == [] &&
        SenderLive(w.sender)
    ensures var w' := ReceiverTakes(sc, w);
            && w'.toReceiver == [] && Rank(sc, w') < Rank(sc, w)
            && w'.sender == w.sender && w'.start == w.start
  {
    HonestHandling(sc, w, n);
  }

  lemma MessageProgress(sc: Scenario, w: World)
    requires Good(sc) && Engaged(sc, w) && w.toReceiver != [] && w.receiver.Receiving?
    ensures var w' := ReceiverTakes(sc, w);
            && Engaged(sc, w') && Rank(sc, w') < Rank(sc, w) && StartPoint(sc, w') == StartPoint(sc, w)
  {
    EngagedHasOneMessage(sc, w);
    assert !w.sender.AwaitAccept?;
    MessageKeepsInv(sc, w);
    MessageRank(sc, w, |w.receiver.received|);
  }

  lemma ReceiverProgress(sc: Scenario, w: World)
    requires Good(sc) && Engaged(sc, w) && w.toReceiver != []
    ensures var w' := ReceiverTakes(sc, w);
            && Engaged(sc, w') && Rank(sc, w') < Rank(sc, w) && StartPoint(sc, w') == StartPoint(sc, w)
  {
    if w.receiver.Waiting? {
      OfferProgress(sc, w);
    } else {
      MessageProgress(sc, w);
    }
  }

  lemma AdvanceProgress(sc: Scenario, w: World)
    requires Good(sc) && Engaged(sc, w) && w.toReceiver == [] && w.toSender != []
    requires w.sender.AwaitAccept? || w.sender.AwaitAck?
    ensures var w' := SenderTakes(sc, w);
            Engaged(sc, w') && Rank(sc, w') < Rank(sc, w) && StartPoint(sc, w') == StartPoint(sc, w)
  {
    AdvanceResult(sc, w);
    SenderTakesKeepsInv(sc, w);
    var next, w' := NextIndex(w), SenderTakes(sc, w);
    assert w'.toReceiver == [Emit(sc, next)];
    assert Rank(sc, w') <= 2 * (sc.manifest.totalChunks - next) + 2;
    assert Rank(sc, w) == 2 * (sc.manifest.totalChunks - next) + 3;
  }

  lemma SenderProgress(sc: Scenario, w: World)
    requires Good(sc) && Engaged(sc, w) && w.toReceiver == []
    ensures w.toSender != []
    ensures var w' := SenderTakes(sc, w);
            && StartPoint(sc, w') == StartPoint(sc, w)
            && (if w'.sender.Done? then Inv(sc, w') && Delivered(sc, w')
                else Engaged(sc, w') && Rank(sc, w') < Rank(sc, w))
  {
    EngagedHasOneMessage(sc, w);
    if w.sender.AwaitComplete? {
      SenderTakesKeepsInv(sc, w);
    } else {
      AdvanceProgress(sc, w);
    }
  }

  /** Taking the messages in flight, one after another, until the session is over. */
  ghost function Settle(sc: Scenario, w: World): (r: World)
    requires Good(sc) && Engaged(sc, w)
    ensures Inv(sc, r) && r.sender.Done? && Delivered(sc, r)
    ensures r.start == StartPoint(sc, w)
    decreases Rank(sc, w)
  {
    if w.toReceiver != [] then
      ReceiverProgress(sc, w);
      Settle(sc, ReceiverTakes(sc, w))
    else
      SenderProgress(sc, w);
      var w' := SenderTakes(sc, w);
      if w'.sender.Done? then w' else Settle(sc, w')
  }

  /** A session left alone always completes. Started on a partial file of `n` bytes it sends exactly the
      chunks from `n / CHUNK_SIZE` on, and delivers the source. */
  lemma UninterruptedSessionDelivers(sc: Scenario, w: World, w': World)
    requires Good(sc) && Inv(sc, w) && Next(sc, w, Connect, w')
    ensures Engaged(sc, w')
    ensures var r := Settle(sc, w'); var k := WholeChunks(sc, w.files);
            && r.sender.Done? && Delivered(sc, r)
            && k <= sc.manifest.totalChunks
            && r.sent == ChunksBetween(sc.hash, sc.manifest, sc.source, k, sc.manifest.totalChunks)
  {
  }
}
