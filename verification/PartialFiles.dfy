/**
 Transfers that start on a directory with any contents (crates/bridge-transfer/src/receiver.rs). The partial file is
 found by name alone, so it may come from a different source. An uninterrupted session turns it into one file that
 depends on nothing else; so does any number of interrupted ones, and the digest of that file decides everything.
 */
module PartialFiles {
  import opened Common
  import opened Chunks
  import opened Receiver
  import opened TransferProtocol
  import opened TransferSessions

  // ---------- one uninterrupted session ----------

  /** What is on disk once the chunks with indices `k..n` have been written over `file`. */
  function Written(sc: Scenario, file: Bytes, k: nat, n: nat): Bytes
    requires |sc.source| == sc.manifest.totalSize && k <= n
    decreases n - k
  {
    if n == k then file
    else WriteAt(Written(sc, file, k, n - 1), (n - 1) * CHUNK_SIZE, ChunkBytes(sc.manifest, sc.source, n - 1))
  }

  /** What an uninterrupted session leaves in the partial file before its digest is checked. */
  function Assembled(sc: Scenario, existing: Bytes): Bytes
    requires |sc.source| == sc.manifest.totalSize
  {
    var k := ResumePoint(sc.manifest, existing);
    Written(sc, Resumed(sc.manifest, existing), k, sc.manifest.totalChunks)
  }

  /** The offer, and what the sender emits between the indices `k..n`. */
  function SessionInput(sc: Scenario, k: nat, n: nat): seq<Message>
    requires |sc.source| == sc.manifest.totalSize && k <= n
    decreases n
  {
    if n == k then [Offer(sc.manifest)] else SessionInput(sc, k, n - 1) + [Emit(sc, n - 1)]
  }

  /** The acceptance, and the acknowledgements of the chunks `k..n`. */
  function SessionReplies(sc: Scenario, k: nat, n: nat): seq<Message>
    requires k <= n
    decreases n
  {
    if n == k then [Accept(sc.manifest.fileId, k)] else SessionReplies(sc, k, n - 1) + [Ack(sc.manifest.fileId, n - 1)]
  }

  /** These are the messages of the sender's own runs. */
  lemma {:induction false} SessionIsOfSender(sc: Scenario, k: nat, n: nat)
    requires |sc.source| == sc.manifest.totalSize && k <= n
    ensures SessionInput(sc, k, n) == [Offer(sc.manifest)] + Emits(sc, k, n)
    ensures SessionReplies(sc, k, n) == Replies(sc, k, n)
    decreases n
  {
    if n == k {
      assert Emits(sc, k, k) == [];
    } else {
      SessionIsOfSender(sc, k, n - 1);
      EmitsSnoc(sc, k, n - 1);
      RepliesSnoc(sc, k, n - 1);
    }
  }

  /** The receiver over everything an honest sender sends it in one session: the offer, the chunks from the point it
      asked for, and the closing message. */
  function WholeSession(sc: Scenario, files: map<string, Bytes>): ReceiverOut
    requires |sc.source| == sc.manifest.totalSize
  {
    var m := sc.manifest;
    var k := ResumePoint(m, Existing(files, PartPath(m)));
    ReceiverRun(sc.hash, files, Waiting, SessionInput(sc, k, m.totalChunks + 1))
  }

  /** Handling an honest chunk when the partial file holds anything at all. */
  lemma AnyFileTakesChunk(sc: Scenario, files: map<string, Bytes>, n: nat)
    requires Good(sc) && n < sc.manifest.totalChunks && PartPath(sc.manifest) in files
    ensures var part := PartPath(sc.manifest);
            ReceiverHandle(sc.hash, files, Receiving(sc.manifest, Below(n)), Emit(sc, n)) ==
            ReceiverOut(files[part := WriteAt(files[part], n * CHUNK_SIZE, ChunkBytes(sc.manifest, sc.source, n))],
                        Receiving(sc.manifest, Below(n + 1)), [Ack(sc.manifest.fileId, n)])
  {
    HonestChunkAccepted(sc.hash, sc.manifest, sc.source, n);
    BelowSucc(n);
  }

  /** After `msgs` the receiver has the chunks below `n`, with `file` as its partial file. */
  ghost predicate ReachesChunk(sc: Scenario, files: map<string, Bytes>, msgs: seq<Message>, n: nat, file: Bytes,
                               replies: seq<Message>) {
    LeadsTo(sc.hash, files, msgs,
            ReceiverOut(files[PartPath(sc.manifest) := file], Receiving(sc.manifest, Below(n)), replies))
  }

  lemma RunOverOffer(sc: Scenario, files: map<string, Bytes>)
    ensures var m, existing := sc.manifest, Existing(files, PartPath(sc.manifest));
            var k := ResumePoint(m, existing);
            ReachesChunk(sc, files, [Offer(m)], k, Resumed(m, existing), [Accept(m.fileId, k)])
  {
    assert [] + [Offer(sc.manifest)] == [Offer(sc.manifest)];
    OneMoreMessage(sc.hash, files, [], ReceiverOut(files, Waiting, []), Offer(sc.manifest));
  }

  lemma RunOverChunk(sc: Scenario, files: map<string, Bytes>, msgs: seq<Message>, n: nat, file: Bytes,
                     replies: seq<Message>)
    requires Good(sc) && n < sc.manifest.totalChunks && ReachesChunk(sc, files, msgs, n, file, replies)
    ensures ReachesChunk(sc, files, msgs + [Emit(sc, n)], n + 1,
                         WriteAt(file, n * CHUNK_SIZE, ChunkBytes(sc.manifest, sc.source, n)),
                         replies + [Ack(sc.manifest.fileId, n)])
  {
    var part := PartPath(sc.manifest);
    OneMoreMessage(sc.hash, files, msgs, ReceiverOut(files[part := file], Receiving(sc.manifest, Below(n)), replies),
                   Emit(sc, n));
    AnyFileTakesChunk(sc, files[part := file], n);
  }

  lemma {:induction false} RunOverChunks(sc: Scenario, files: map<string, Bytes>, k: nat, n: nat)
    requires Good(sc) && k == ResumePoint(sc.manifest, Existing(files, PartPath(sc.manifest)))
    requires k <= n <= sc.manifest.totalChunks
    ensures var kept := Resumed(sc.manifest, Existing(files, PartPath(sc.manifest)));
            ReachesChunk(sc, files, SessionInput(sc, k, n), n, Written(sc, kept, k, n), SessionReplies(sc, k, n))
    decreases n
  {
    var kept := Resumed(sc.manifest, Existing(files, PartPath(sc.manifest)));
    if n == k {
      RunOverOffer(sc, files);
    } else {
      RunOverChunks(sc, files, k, n - 1);
      RunOverChunk(sc, files, SessionInput(sc, k, n - 1), n - 1, Written(sc, kept, k, n - 1),
                   SessionReplies(sc, k, n - 1));
    }
  }

  /** How a session ends on a fully written file: by its digest. */
  function Ending(sc: Scenario, files: map<string, Bytes>, file: Bytes, replies: seq<Message>): ReceiverOut {
    var m, part := sc.manifest, PartPath(sc.manifest);
    if sc.hash(file) == sc.hash(sc.source)
    then ReceiverOut(Renamed(files[part := file], part, m.filename), Waiting, replies + [Complete(m.fileId)])
    else ReceiverOut(files[part := file], Closed, replies)
  }

  /** The closing message, once every chunk has been written. */
  lemma RunOverFinish(sc: Scenario, files: map<string, Bytes>, msgs: seq<Message>, file: Bytes, replies: seq<Message>)
    requires Good(sc) && ReachesChunk(sc, files, msgs, sc.manifest.totalChunks, file, replies)
    ensures LeadsTo(sc.hash, files, msgs + [Emit(sc, sc.manifest.totalChunks)], Ending(sc, files, file, replies))
  {
    var m, part := sc.manifest, PartPath(sc.manifest);
    OneMoreMessage(sc.hash, files, msgs, ReceiverOut(files[part := file], Receiving(m, Below(m.totalChunks)), replies),
                   Emit(sc, m.totalChunks));
    CompleteIsEverything(m, Below(m.totalChunks));
    assert replies + [] == replies;
  }

  /** Whatever was in the directory, an uninterrupted session assembles the file over what it kept, and ends well if
      and only if the digest of that is the source's. If not, the receiver bails and the file stays as it is. */
  lemma WholeSessionOutcome(sc: Scenario, files: map<string, Bytes>)
    requires Good(sc)
    ensures var m, existing := sc.manifest, Existing(files, PartPath(sc.manifest));
            var replies := SessionReplies(sc, ResumePoint(m, existing), m.totalChunks);
            WholeSession(sc, files) == Ending(sc, files, Assembled(sc, existing), replies)
  {
    var existing := Existing(files, PartPath(sc.manifest));
    var k: nat, n: nat := ResumePoint(sc.manifest, existing), sc.manifest.totalChunks;
    RunOverChunks(sc, files, k, n);
    RunOverFinish(sc, files, SessionInput(sc, k, n), Assembled(sc, existing), SessionReplies(sc, k, n));
  }

  /** `file`, of `k` whole chunks, continued with the source up to chunk `n`. */
  ghost predicate Continues(sc: Scenario, file: Bytes, k: nat, n: nat, all: Bytes)
    requires |sc.source| == sc.manifest.totalSize && k <= n
  {
    var from, upto := ChunkStart(sc.manifest, k), ChunkStart(sc.manifest, n);
    |file| == from <= upto && all == file + sc.source[from..upto]
  }

  lemma AppendChunk(sc: Scenario, file: Bytes, k: nat, n: nat, all: Bytes)
    requires Good(sc) && k <= n < sc.manifest.totalChunks && Continues(sc, file, k, n, all)
    ensures Continues(sc, file, k, n + 1, WriteAt(all, n * CHUNK_SIZE, ChunkBytes(sc.manifest, sc.source, n)))
  {
    var m, data := sc.manifest, ChunkBytes(sc.manifest, sc.source, n);
    ChunkGeometry(m, n);
    WriteAtEnd(all, data);
    assert sc.source[ChunkStart(m, k)..ChunkStart(m, n + 1)] == sc.source[ChunkStart(m, k)..ChunkStart(m, n)] + data;
  }

  lemma {:induction false} WrittenContinues(sc: Scenario, file: Bytes, k: nat, n: nat)
    requires Good(sc) && k <= n <= sc.manifest.totalChunks && |file| == ChunkStart(sc.manifest, k)
    ensures Continues(sc, file, k, n, Written(sc, file, k, n))
    decreases n
  {
    if n == k {
      assert sc.source[ChunkStart(sc.manifest, k)..ChunkStart(sc.manifest, k)] == [];
    } else {
      WrittenContinues(sc, file, k, n - 1);
      AppendChunk(sc, file, k, n - 1, Written(sc, file, k, n - 1));
    }
  }

  /** What is assembled: what was kept, and the source after that. */
  lemma AssembledIs(sc: Scenario, existing: Bytes)
    requires Good(sc)
    ensures var m, kept := sc.manifest, Resumed(sc.manifest, existing);
            if ResumePoint(m, existing) < m.totalChunks
            then |kept| == ResumePoint(m, existing) * CHUNK_SIZE < |sc.source| &&
                Assembled(sc, existing) == kept + sc.source[|kept|..]
            else Assembled(sc, existing) == kept && |kept| >= |sc.source|
  {
    var m, k, kept := sc.manifest, ResumePoint(sc.manifest, existing), Resumed(sc.manifest, existing);
    CountIsCeiling(m);
    ResumePointFits(m, existing);
    if k < m.totalChunks {
      ChunkGeometry(m, k);
      WrittenContinues(sc, kept, k, m.totalChunks);
      assert sc.source[|kept|..|sc.source|] == sc.source[|kept|..];
    }
  }

  /** The partial file is found by name alone, so it may come from a different source. An uninterrupted session ends
      with the source in place exactly when what `to_dir` kept is a prefix of the source. */
  lemma ResumeIsSoundExactlyOnPrefixes(sc: Scenario, files: map<string, Bytes>)
    requires Good(sc)
    ensures var out := WholeSession(sc, files);
            (out.phase.Waiting? && sc.manifest.filename in out.files &&
             out.files[sc.manifest.filename] == sc.source) <==>
            Resumed(sc.manifest, Existing(files, PartPath(sc.manifest))) <= sc.source
  {
    var m, existing := sc.manifest, Existing(files, PartPath(sc.manifest));
    var kept := Resumed(m, existing);
    WholeSessionOutcome(sc, files);
    AssembledIs(sc, existing);
    assert |PartPath(m)| != |m.filename|;
    assert Assembled(sc, existing) == sc.source <==> kept <= sc.source by {
      assert kept <= sc.source ==> kept + sc.source[|kept|..] == sc.source;
    }
  }

  /** A file of the source's size resumes at its whole chunks. */
  lemma FullSizeResumes(sc: Scenario, file: Bytes)
    requires Good(sc) && |file| == |sc.source| > 0
    ensures ResumePoint(sc.manifest, file) == |file| / CHUNK_SIZE
  {
    CountIsCeiling(sc.manifest);
  }

  lemma AssemblingOnTop(sc: Scenario, kept: Bytes, k: nat)
    requires Good(sc) && k < sc.manifest.totalChunks && |kept| == k * CHUNK_SIZE < |sc.source|
    ensures var final := kept + sc.source[|kept|..];
            Assembled(sc, final) == final
  {
    var m, final := sc.manifest, kept + sc.source[|kept|..];
    var k' := |final| / CHUNK_SIZE;
    FullSizeResumes(sc, final);
    AssembledIs(sc, final);
    assert k <= k';
    if k' < m.totalChunks {
      var n := k' * CHUNK_SIZE;
      assert n >= |kept| && final[n..] == sc.source[n..];
      assert final[..n] + final[n..] == final;
    } else {
      assert Resumed(m, final) == final;
    }
  }

  lemma AssemblingWhole(sc: Scenario, existing: Bytes)
    requires Good(sc) && ResumePoint(sc.manifest, existing) == sc.manifest.totalChunks
    ensures var kept := Resumed(sc.manifest, existing);
            Assembled(sc, kept) == kept
  {
    var m, kept := sc.manifest, Resumed(sc.manifest, existing);
    AssembledIs(sc, kept);
    if m.totalChunks > 0 {
      assert |kept| / CHUNK_SIZE == m.totalChunks;
      assert kept[..|kept|] == kept;
    }
  }

  /** Resuming on what a session assembled assembles the same again. */
  lemma AssemblingAgain(sc: Scenario, existing: Bytes)
    requires Good(sc)
    ensures Assembled(sc, Assembled(sc, existing)) == Assembled(sc, existing)
  {
    AssembledIs(sc, existing);
    if ResumePoint(sc.manifest, existing) < sc.manifest.totalChunks {
      AssemblingOnTop(sc, Resumed(sc.manifest, existing), ResumePoint(sc.manifest, existing));
    } else {
      AssemblingWhole(sc, existing);
    }
  }

  /** The directory after `n` uninterrupted sessions, one after another. */
  function ManySessions(sc: Scenario, files: map<string, Bytes>, n: nat): map<string, Bytes>
    requires |sc.source| == sc.manifest.totalSize
  {
    if n == 0 then files else WholeSession(sc, ManySessions(sc, files, n - 1)).files
  }

  /** A partial file that fails the digest check is kept on disk, resumed from and found wanting again, however many
      sessions are tried: every one of them bails and leaves exactly the same bytes. */
  lemma {:induction false} BadPartialFileNeverHeals(sc: Scenario, files: map<string, Bytes>, n: nat)
    requires Good(sc) && n > 0
    requires sc.hash(Assembled(sc, Existing(files, PartPath(sc.manifest)))) != sc.hash(sc.source)
    ensures WholeSession(sc, ManySessions(sc, files, n - 1)).phase == Closed
    ensures var part := PartPath(sc.manifest);
            ManySessions(sc, files, n) == files[part := Assembled(sc, Existing(files, part))]
  {
    var part := PartPath(sc.manifest);
    if n == 1 {
      WholeSessionOutcome(sc, files);
    } else {
      BadPartialFileNeverHeals(sc, files, n - 1);
      WholeSessionOutcome(sc, ManySessions(sc, files, n - 1));
      AssemblingAgain(sc, Existing(files, part));
    }
  }

  // ---------- the partial file under any interruptions ----------

  /** The partial file a run starts from, how many whole chunks of it are kept, what that leaves, and the file that an
      uninterrupted session makes of it. */
  datatype Goal = Goal(found: Bytes, first: nat, kept: Bytes, final: Bytes)

  function GoalOf(sc: Scenario, found: Bytes): Goal
    requires |sc.source| == sc.manifest.totalSize
  {
    Goal(found, ResumePoint(sc.manifest, found), Resumed(sc.manifest, found), Assembled(sc, found))
  }

  /** The partial file once the chunks below `n` are in place. */
  function Cut(m: Manifest, g: Goal, n: nat): Bytes {
    if n < m.totalChunks && n * CHUNK_SIZE <= |g.final| then g.final[..n * CHUNK_SIZE] else g.final
  }

  /** The partial file is as it was found, or what was kept of it and more of what it will become. */
  ghost predicate OnTheWay(g: Goal, file: Bytes) {
    file == g.found || (g.kept <= file && file <= g.final)
  }

  /** What is known of the goal of a run: it begins with what is kept, and behind that it is the source. */
  ghost predicate IsGoal(sc: Scenario, g: Goal)
    requires |sc.source| == sc.manifest.totalSize
  {
    var m := sc.manifest;
    && g.first == ResumePoint(m, g.found) <= m.totalChunks && g.kept == Resumed(m, g.found) && g.kept <= g.final
    && g.kept == Cut(m, g, g.first) && |g.kept| >= g.first * CHUNK_SIZE
    && (m.totalChunks == 0 ==> g.kept == g.final)
    && (m.totalChunks > 0 ==> 0 < |g.final| <= m.totalChunks * CHUNK_SIZE)
    && (g.first < m.totalChunks ==>
          && |g.final| == |sc.source| && |g.kept| == g.first * CHUNK_SIZE < |sc.source|
          && g.final[|g.kept|..] == sc.source[|g.kept|..])
  }

  lemma GoalIsGoal(sc: Scenario, found: Bytes)
    requires Good(sc)
    ensures IsGoal(sc, GoalOf(sc, found))
  {
    AssembledIs(sc, found);
    CountIsCeiling(sc.manifest);
    ResumePointFits(sc.manifest, found);
  }

  lemma RestIsSource(sc: Scenario, g: Goal, n: nat)
    requires Good(sc) && IsGoal(sc, g) && g.first <= n < sc.manifest.totalChunks
    ensures |g.final| == |sc.source| > n * CHUNK_SIZE >= |g.kept|
    ensures g.final[n * CHUNK_SIZE..] == sc.source[n * CHUNK_SIZE..]
  {
    ChunkGeometry(sc.manifest, n);
    var at, k := n * CHUNK_SIZE, |g.kept|;
    assert g.final[at..] == g.final[k..][at - k..] && sc.source[at..] == sc.source[k..][at - k..];
  }

  /** Cutting back a file of at most `totalChunks` chunks. */
  lemma ResumedPrefix(m: Manifest, file: Bytes, final: Bytes)
    requires m.totalChunks > 0 && file <= final && |final| <= m.totalChunks * CHUNK_SIZE
    ensures var k := ResumePoint(m, file);
            && k == |file| / CHUNK_SIZE <= m.totalChunks && k * CHUNK_SIZE <= |final|
            && Resumed(m, file) == final[..k * CHUNK_SIZE]
            && (k == m.totalChunks ==> Resumed(m, file) == final)
  {
    assert |file| / CHUNK_SIZE <= m.totalChunks;
  }

  /** Resuming on the way keeps exactly whole chunks of the file to come, and never fewer than at first. */
  lemma ResumesOnTheWay(sc: Scenario, g: Goal, file: Bytes)
    requires |sc.source| == sc.manifest.totalSize && IsGoal(sc, g) && OnTheWay(g, file)
    ensures g.first <= ResumePoint(sc.manifest, file) <= sc.manifest.totalChunks
    ensures Resumed(sc.manifest, file) == Cut(sc.manifest, g, ResumePoint(sc.manifest, file))
  {
    if file != g.found && sc.manifest.totalChunks > 0 {
      ResumedPrefix(sc.manifest, file, g.final);
    }
  }

  /** Writing `j` bytes of the next chunk. */
  lemma WritesOnTheWay(sc: Scenario, g: Goal, n: nat, j: nat)
    requires Good(sc) && IsGoal(sc, g) && g.first <= n < sc.manifest.totalChunks
    requires j <= |ChunkBytes(sc.manifest, sc.source, n)|
    ensures n * CHUNK_SIZE + j <= |g.final| && |g.kept| <= n * CHUNK_SIZE
    ensures WriteAt(Cut(sc.manifest, g, n), n * CHUNK_SIZE, ChunkBytes(sc.manifest, sc.source, n)[..j]) ==
            g.final[..n * CHUNK_SIZE + j]
    ensures j == |ChunkBytes(sc.manifest, sc.source, n)| ==>
              g.final[..n * CHUNK_SIZE + j] == Cut(sc.manifest, g, n + 1)
  {
    var at, data := n * CHUNK_SIZE, ChunkBytes(sc.manifest, sc.source, n);
    RestIsSource(sc, g, n);
    ChunkGeometry(sc.manifest, n);
    assert data[..j] == sc.source[at..][..j] && g.final[at..][..j] == g.final[at..at + j];
    WriteAtEnd(g.final[..at], data[..j]);
    assert g.final[..at] + g.final[at..at + j] == g.final[..at + j];
    assert g.final[..|g.final|] == g.final;
  }

  /** The receiver has the chunks below `n`, on disk and in its set. */
  ghost predicate HasCut(sc: Scenario, g: Goal, w: World, n: nat)
    requires |sc.source| == sc.manifest.totalSize
  {
    && g.first <= n <= sc.manifest.totalChunks
    && w.receiver == Receiving(sc.manifest, Below(n))
    && PartPath(sc.manifest) in w.files && w.files[PartPath(sc.manifest)] == Cut(sc.manifest, g, n)
  }

  ghost predicate ReceiverOnTheWay(sc: Scenario, g: Goal, w: World)
    requires |sc.source| == sc.manifest.totalSize
  {
    match w.receiver
    case Closed => w.toReceiver == []
    case Waiting => w.toReceiver == [] || w.toReceiver == [Offer(sc.manifest)]
    case Receiving(_, received) =>
      HasCut(sc, g, w, |received|) && (w.toReceiver == [] || w.toReceiver == [Emit(sc, |received|)])
  }

  /** A live receiver has the chunks below `n` and nothing under way. */
  ghost predicate HasTaken(sc: Scenario, g: Goal, w: World, n: nat)
    requires |sc.source| == sc.manifest.totalSize
  {
    && g.first <= n <= sc.manifest.totalChunks
    && (w.receiver.Closed? || (HasCut(sc, g, w, n) && w.toReceiver == []))
  }

  /** A live receiver has the chunks below `n` and the next message on its way. */
  ghost predicate IsOwed(sc: Scenario, g: Goal, w: World, n: nat)
    requires |sc.source| == sc.manifest.totalSize
  {
    && g.first <= n <= sc.manifest.totalChunks
    && (w.receiver.Closed? || (HasCut(sc, g, w, n) && w.toReceiver == [Emit(sc, n)]))
  }

  /** No sender has seen or is about to see `Complete`. */
  ghost predicate SenderOnTheWay(sc: Scenario, g: Goal, w: World)
    requires |sc.source| == sc.manifest.totalSize
  {
    var m := sc.manifest;
    match w.sender
    case AwaitAccept =>
      || (w.toSender == [] && (w.receiver.Closed? || (w.receiver.Waiting? && w.toReceiver == [Offer(m)])))
      || (|w.toSender| == 1 && w.toSender[0].Accept? && w.toSender[0].fileId == m.fileId
          && HasTaken(sc, g, w, w.toSender[0].startChunk))
    case AwaitAck(i) =>
      && i < m.totalChunks
      && ((w.toSender == [] && IsOwed(sc, g, w, i))
          || (w.toSender == [Ack(m.fileId, i)] && HasTaken(sc, g, w, i + 1)))
    case AwaitComplete => w.toSender == [] && IsOwed(sc, g, w, m.totalChunks)
    case Done => false
    case _ => w.toSender == []
  }

  ghost predicate Underway(sc: Scenario, g: Goal, w: World)
    requires |sc.source| == sc.manifest.totalSize
  {
    && OnTheWay(g, Existing(w.files, PartPath(sc.manifest)))
    && !w.completed
    && ReceiverOnTheWay(sc, g, w)
    && SenderOnTheWay(sc, g, w)
  }

  lemma CutIsOnTheWay(sc: Scenario, g: Goal, n: nat)
    requires Good(sc) && IsGoal(sc, g) && g.first <= n
    ensures OnTheWay(g, Cut(sc.manifest, g, n))
  {
    if n < sc.manifest.totalChunks {
      RestIsSource(sc, g, n);
    }
  }

  lemma ReceiverAt(sc: Scenario, g: Goal, w: World, n: nat)
    requires |sc.source| == sc.manifest.totalSize && HasCut(sc, g, w, n)
    requires w.toReceiver == [] || w.toReceiver == [Emit(sc, n)]
    ensures ReceiverOnTheWay(sc, g, w)
  {
    BelowSize(n);
  }

  /** While a message is on its way to a receiver with the chunks below `n`, a live sender waits for the answer to it.
      */
  lemma MessageIsOwed(sc: Scenario, g: Goal, w: World, n: nat)
    requires |sc.source| == sc.manifest.totalSize && Underway(sc, g, w) && HasCut(sc, g, w, n)
    requires w.toReceiver != []
    ensures w.toReceiver == [Emit(sc, n)] && w.toSender == []
    ensures SenderLive(w.sender) ==> w.sender == Advance(sc, n).phase
  {
    BelowSize(n);
    match w.sender
    case AwaitAck(i) => BelowSize(i);
    case AwaitComplete => BelowSize(sc.manifest.totalChunks);
    case _ =>
  }

  /** The world after the receiver has answered the offer, from its fields. */
  lemma TookOffer(sc: Scenario, g: Goal, w: World, k: nat)
    requires |sc.source| == sc.manifest.totalSize && HasCut(sc, g, w, k)
    requires w.toReceiver == [] && !w.completed && !w.sender.Done?
    requires OnTheWay(g, Existing(w.files, PartPath(sc.manifest)))
    requires SenderLive(w.sender) ==> w.sender == AwaitAccept
    requires w.toSender == if SenderLive(w.sender) then [Accept(sc.manifest.fileId, k)] else []
    ensures Underway(sc, g, w)
  {
    ReceiverAt(sc, g, w, k);
  }

  lemma OfferKeepsUnderway(sc: Scenario, g: Goal, w: World)
    requires Good(sc) && IsGoal(sc, g) && Underway(sc, g, w) && w.toReceiver != [] && w.receiver.Waiting?
    ensures Underway(sc, g, ReceiverTakes(sc, w))
  {
    var file := Existing(w.files, PartPath(sc.manifest));
    ResumesOnTheWay(sc, g, file);
    CutIsOnTheWay(sc, g, ResumePoint(sc.manifest, file));
    assert w.toReceiver[1..] == [] && w.toSender == [];
    TookOffer(sc, g, ReceiverTakes(sc, w), ResumePoint(sc.manifest, file));
  }

  /** The world after the receiver has taken chunk `n`, from its fields. */
  lemma TookChunk(sc: Scenario, g: Goal, w: World, n: nat)
    requires |sc.source| == sc.manifest.totalSize && n < sc.manifest.totalChunks
    requires HasCut(sc, g, w, n + 1) && w.toReceiver == [] && !w.completed && !w.sender.Done?
    requires OnTheWay(g, Existing(w.files, PartPath(sc.manifest)))
    requires SenderLive(w.sender) ==> w.sender == AwaitAck(n)
    requires w.toSender == if SenderLive(w.sender) then [Ack(sc.manifest.fileId, n)] else []
    ensures Underway(sc, g, w)
  {
    ReceiverAt(sc, g, w, n + 1);
  }

  lemma ChunkKeepsUnderway(sc: Scenario, g: Goal, w: World, n: nat)
    requires Good(sc) && IsGoal(sc, g) && Underway(sc, g, w) && w.toReceiver != [] && HasCut(sc, g, w, n)
    requires n < sc.manifest.totalChunks
    ensures Underway(sc, g, ReceiverTakes(sc, w))
  {
    var data := ChunkBytes(sc.manifest, sc.source, n);
    MessageIsOwed(sc, g, w, n);
    AnyFileTakesChunk(sc, w.files, n);
    WritesOnTheWay(sc, g, n, |data|);
    assert data[..|data|] == data;
    TookChunk(sc, g, ReceiverTakes(sc, w), n);
  }

  /** The closing message meets the file to come, and its digest decides. */
  lemma FinishOnTheWay(sc: Scenario, g: Goal, w: World)
    requires Good(sc) && IsGoal(sc, g) && HasCut(sc, g, w, sc.manifest.totalChunks)
    ensures var m, part := sc.manifest, PartPath(sc.manifest);
            && w.files[part] == g.final
            && ReceiverHandle(sc.hash, w.files, w.receiver, Emit(sc, m.totalChunks)) ==
               if sc.hash(g.final) == sc.hash(sc.source)
               then ReceiverOut(Renamed(w.files, part, m.filename), Waiting, [Complete(m.fileId)])
               else ReceiverOut(w.files, Closed, [])
  {
    CompleteIsEverything(sc.manifest, Below(sc.manifest.totalChunks));
  }

  ghost predicate DigestsDiffer(sc: Scenario, g: Goal)
    requires |sc.source| == sc.manifest.totalSize
  {
    sc.hash(g.final) != sc.hash(sc.source)
  }

  lemma FinishKeepsUnderway(sc: Scenario, g: Goal, w: World)
    requires Good(sc) && IsGoal(sc, g) && Underway(sc, g, w) && w.toReceiver != [] &&
        HasCut(sc, g, w, sc.manifest.totalChunks)
    requires DigestsDiffer(sc, g)
    ensures Underway(sc, g, ReceiverTakes(sc, w))
  {
    MessageIsOwed(sc, g, w, sc.manifest.totalChunks);
    FinishOnTheWay(sc, g, w);
    assert w.toSender + [] == w.toSender;
  }

  lemma TornStaysOnTheWay(sc: Scenario, g: Goal, w: World, left: map<string, Bytes>)
    requires Good(sc) && IsGoal(sc, g) && Underway(sc, g, w) && DigestsDiffer(sc, g)
    requires w.toReceiver != [] && Torn(sc, w.files, w.receiver, w.toReceiver[0], left)
    ensures OnTheWay(g, Existing(left, PartPath(sc.manifest)))
  {
    var part := PartPath(sc.manifest);
    if left != w.files && w.receiver.Receiving? {
      var n := |w.receiver.received|;
      if n < sc.manifest.totalChunks {
        var c := Emit(sc, n).chunk;
        var j: nat :| j <= |c.data| && left == w.files[part := WriteAt(Existing(w.files, part), c.offset, c.data[..j])];
        WritesOnTheWay(sc, g, n, j);
      } else {
        FinishOnTheWay(sc, g, w);
      }
    }
  }

  lemma DeadReceiverUnderway(sc: Scenario, g: Goal, w: World, left: map<string, Bytes>)
    requires |sc.source| == sc.manifest.totalSize && Underway(sc, g, w)
    requires OnTheWay(g, Existing(left, PartPath(sc.manifest)))
    ensures Underway(sc, g, w.(files := left, receiver := Closed, toReceiver := []))
  {
  }

  lemma SenderMovesOn(sc: Scenario, g: Goal, w: World)
    requires |sc.source| == sc.manifest.totalSize && SenderOnTheWay(sc, g, w) && w.toSender != [] &&
        SenderLive(w.sender)
    ensures w.sender.AwaitAck? || (w.sender.AwaitAccept? && w.toSender[0].Accept?)
    ensures var next := NextIndex(w);
            && HasTaken(sc, g, w, next) && w.toSender[1..] == []
            && SenderHandle(sc, w.sender, w.toSender[0]) == Advance(sc, next)
  {
    if w.sender.AwaitAck? {
      assert w.toSender == [Ack(sc.manifest.fileId, w.sender.index)];
    } else {
      assert w.toSender == [Accept(sc.manifest.fileId, w.toSender[0].startChunk)];
    }
  }

  /** The world after the sender has moved on to `next`, from its fields. */
  lemma MovedOn(sc: Scenario, g: Goal, w: World, w': World, next: nat)
    requires |sc.source| == sc.manifest.totalSize && Underway(sc, g, w) && HasTaken(sc, g, w, next)
    requires w'.files == w.files && w'.receiver == w.receiver && w'.completed == w.completed
    requires w'.sender == Advance(sc, next).phase && w'.toSender == []
    requires w'.toReceiver == if w.receiver.Closed? then w.toReceiver else w.toReceiver + [Emit(sc, next)]
    ensures Underway(sc, g, w')
  {
    if !w.receiver.Closed? {
      assert HasCut(sc, g, w', next) && w'.toReceiver == [Emit(sc, next)];
      ReceiverAt(sc, g, w', next);
    }
    assert IsOwed(sc, g, w', next);
  }

  lemma SenderKeepsUnderway(sc: Scenario, g: Goal, w: World)
    requires |sc.source| == sc.manifest.totalSize && Underway(sc, g, w) && w.toSender != [] && SenderLive(w.sender)
    ensures Underway(sc, g, SenderTakes(sc, w))
  {
    SenderMovesOn(sc, g, w);
    MovedOn(sc, g, w, SenderTakes(sc, w), NextIndex(w));
  }

  lemma ReceiverKeepsUnderway(sc: Scenario, g: Goal, w: World)
    requires Good(sc) && IsGoal(sc, g) && Underway(sc, g, w) && w.toReceiver != [] && !w.receiver.Closed?
    requires DigestsDiffer(sc, g) || !w.toReceiver[0].Finished?
    ensures Underway(sc, g, ReceiverTakes(sc, w))
  {
    if w.receiver.Waiting? {
      OfferKeepsUnderway(sc, g, w);
    } else if |w.receiver.received| < sc.manifest.totalChunks {
      ChunkKeepsUnderway(sc, g, w, |w.receiver.received|);
    } else {
      FinishKeepsUnderway(sc, g, w);
    }
  }

  lemma StepKeepsUnderway(sc: Scenario, g: Goal, w: World, step: Step, w': World)
    requires Good(sc) && IsGoal(sc, g) && DigestsDiffer(sc, g) && Underway(sc, g, w) && Next(sc, w, step, w')
    ensures Underway(sc, g, w')
  {
    match step
    case Connect =>
    case TakeAtReceiver => ReceiverKeepsUnderway(sc, g, w);
    case TakeAtSender => SenderKeepsUnderway(sc, g, w);
    case ReceiverDies(left) =>
      TornStaysOnTheWay(sc, g, w, left);
      DeadReceiverUnderway(sc, g, w, left);
    case ReceiverCloses => DeadReceiverUnderway(sc, g, w, w.files);
    case SenderCloses =>
  }

  /** Nothing running, in a directory with any contents. */
  function Quiet(files: map<string, Bytes>): World {
    World(files, Idle, Closed, [], [], 0, [], false)
  }

  ghost predicate IsRunFrom(sc: Scenario, files: map<string, Bytes>, run: seq<World>)
    requires |sc.source| == sc.manifest.totalSize
  {
    && run != [] && run[0] == Quiet(files)
    && forall i :: 0 <= i < |run| - 1 ==> Follows(sc, run[i], run[i + 1])
  }

  /** From any directory, if the file that the partial file will become has not the source's digest, then over any
      number of sessions, interrupted anywhere, no sender sees `Complete`, and the partial file is as it was found or
      what was kept of it with more of that same file. */
  lemma {:induction false} DifferingDigestNeverCompletes(sc: Scenario, files: map<string, Bytes>, run: seq<World>,
                                                         i: nat)
    requires Good(sc) && IsRunFrom(sc, files, run) && i < |run|
    requires DigestsDiffer(sc, GoalOf(sc, Existing(files, PartPath(sc.manifest))))
    ensures var g := GoalOf(sc, Existing(files, PartPath(sc.manifest)));
            && Underway(sc, g, run[i]) && !run[i].completed
            && OnTheWay(g, Existing(run[i].files, PartPath(sc.manifest)))
  {
    var g := GoalOf(sc, Existing(files, PartPath(sc.manifest)));
    GoalIsGoal(sc, g.found);
    if i == 0 {
    } else {
      DifferingDigestNeverCompletes(sc, files, run, i - 1);
      var step :| Next(sc, run[i - 1], step, run[i]);
      StepKeepsUnderway(sc, g, run[i - 1], step, run[i]);
    }
  }

  // ---------- and if the digests agree ----------

  lemma OneMoreWorld(sc: Scenario, files: map<string, Bytes>, run: seq<World>, step: Step, w: World)
    requires |sc.source| == sc.manifest.totalSize && IsRunFrom(sc, files, run) && Next(sc, run[|run| - 1], step, w)
    ensures IsRunFrom(sc, files, run + [w])
  {
    var all := run + [w];
    forall i | 0 <= i < |all| - 1 ensures Follows(sc, all[i], all[i + 1]) {
      if i < |run| - 1 {
        assert Follows(sc, run[i], run[i + 1]);
      }
    }
  }

  /** Both ends alive. */
  ghost predicate Going(sc: Scenario, g: Goal, w: World)
    requires |sc.source| == sc.manifest.totalSize
  {
    Underway(sc, g, w) && SenderLive(w.sender) && !w.receiver.Closed?
  }

  lemma GoingHasOneMessage(sc: Scenario, g: Goal, w: World)
    requires |sc.source| == sc.manifest.totalSize && Going(sc, g, w)
    ensures (|w.toReceiver| == 1 && w.toSender == []) || (w.toReceiver == [] && |w.toSender| == 1)
  {
  }

  lemma OfferRank(sc: Scenario, w: World)
    requires w.toReceiver == [Offer(sc.manifest)] && w.receiver.Waiting? && w.toSender == [] && SenderLive(w.sender)
    ensures var w' := ReceiverTakes(sc, w);
            && Rank(sc, w') < Rank(sc, w) && w'.sender == w.sender && !w'.receiver.Closed?
  {
  }

  lemma ChunkRank(sc: Scenario, w: World, n: nat)
    requires Good(sc) && n < sc.manifest.totalChunks && PartPath(sc.manifest) in w.files
    requires w.toReceiver == [Emit(sc, n)] && w.receiver == Receiving(sc.manifest, Below(n))
    requires w.toSender == [] && SenderLive(w.sender)
    ensures var w' := ReceiverTakes(sc, w);
            && Rank(sc, w') < Rank(sc, w) && w'.sender == w.sender && !w'.receiver.Closed?
  {
    AnyFileTakesChunk(sc, w.files, n);
  }

  lemma ReceiverGoesOn(sc: Scenario, g: Goal, w: World)
    requires Good(sc) && IsGoal(sc, g) && Going(sc, g, w) && w.toReceiver != [] && !w.toReceiver[0].Finished?
    ensures Going(sc, g, ReceiverTakes(sc, w)) && Rank(sc, ReceiverTakes(sc, w)) < Rank(sc, w)
  {
    GoingHasOneMessage(sc, g, w);
    ReceiverKeepsUnderway(sc, g, w);
    if w.receiver.Waiting? {
      OfferRank(sc, w);
    } else {
      ChunkRank(sc, w, |w.receiver.received|);
    }
  }

  lemma SenderGoesOn(sc: Scenario, g: Goal, w: World)
    requires Good(sc) && IsGoal(sc, g) && Going(sc, g, w) && w.toReceiver == []
    ensures w.toSender != [] && Going(sc, g, SenderTakes(sc, w)) && Rank(sc, SenderTakes(sc, w)) < Rank(sc, w)
  {
    GoingHasOneMessage(sc, g, w);
    SenderMovesOn(sc, g, w);
    SenderKeepsUnderway(sc, g, w);
    var next, w' := NextIndex(w), SenderTakes(sc, w);
    assert w'.toReceiver == [Emit(sc, next)];
    assert Rank(sc, w') <= 2 * (sc.manifest.totalChunks - next) + 2;
    assert Rank(sc, w) == 2 * (sc.manifest.totalChunks - next) + 3;
  }

  /** The last two messages of a session whose file has the right digest. */
  lemma FinishCompletes(sc: Scenario, g: Goal, w: World)
    requires Good(sc) && IsGoal(sc, g) && Going(sc, g, w) && w.toReceiver != [] && w.toReceiver[0].Finished?
    requires !DigestsDiffer(sc, g)
    ensures var w' := ReceiverTakes(sc, w);
            && w'.toSender != [] && SenderLive(w'.sender) && SenderTakes(sc, w').completed
  {
    var n := |w.receiver.received|;
    MessageIsOwed(sc, g, w, n);
    FinishOnTheWay(sc, g, w);
  }

  lemma {:induction false} GoesOnToComplete(sc: Scenario, files: map<string, Bytes>, run: seq<World>)
      returns (all: seq<World>)
    requires Good(sc) && IsRunFrom(sc, files, run)
    requires var g := GoalOf(sc, Existing(files, PartPath(sc.manifest)));
             Going(sc, g, run[|run| - 1]) && !DigestsDiffer(sc, g)
    ensures IsRunFrom(sc, files, all) && all[|all| - 1].completed
    decreases Rank(sc, run[|run| - 1])
  {
    var g, w := GoalOf(sc, Existing(files, PartPath(sc.manifest))), run[|run| - 1];
    GoalIsGoal(sc, g.found);
    if w.toReceiver == [] {
      SenderGoesOn(sc, g, w);
      OneMoreWorld(sc, files, run, TakeAtSender, SenderTakes(sc, w));
      all := GoesOnToComplete(sc, files, run + [SenderTakes(sc, w)]);
    } else if w.toReceiver[0].Finished? {
      FinishCompletes(sc, g, w);
      var w' := ReceiverTakes(sc, w);
      OneMoreWorld(sc, files, run, TakeAtReceiver, w');
      OneMoreWorld(sc, files, run + [w'], TakeAtSender, SenderTakes(sc, w'));
      all := run + [w'] + [SenderTakes(sc, w')];
    } else {
      ReceiverGoesOn(sc, g, w);
      OneMoreWorld(sc, files, run, TakeAtReceiver, ReceiverTakes(sc, w));
      all := GoesOnToComplete(sc, files, run + [ReceiverTakes(sc, w)]);
    }
  }

  ghost predicate CompletesIn(sc: Scenario, files: map<string, Bytes>, run: seq<World>)
    requires |sc.source| == sc.manifest.totalSize
  {
    IsRunFrom(sc, files, run) && run[|run| - 1].completed
  }

  /** From any directory, some run has a sender that sees `Complete` if and only if the file that an uninterrupted
      session would assemble there has the source's digest. */
  lemma SomeRunCompletesExactlyIfDigestsAgree(sc: Scenario, files: map<string, Bytes>)
    requires Good(sc)
    ensures (exists run: seq<World> :: CompletesIn(sc, files, run)) <==>
            sc.hash(Assembled(sc, Existing(files, PartPath(sc.manifest)))) == sc.hash(sc.source)
  {
    var g := GoalOf(sc, Existing(files, PartPath(sc.manifest)));
    if DigestsDiffer(sc, g) {
      forall run: seq<World> | IsRunFrom(sc, files, run) ensures !run[|run| - 1].completed {
        DifferingDigestNeverCompletes(sc, files, run, |run| - 1);
      }
    } else {
      var w := Quiet(files).(sender := AwaitAccept, receiver := Waiting, toReceiver := [Offer(sc.manifest)]);
      OneMoreWorld(sc, files, [Quiet(files)], Connect, w);
      var run := GoesOnToComplete(sc, files, [Quiet(files)] + [w]);
      assert CompletesIn(sc, files, run);
    }
  }

  // ---------- the digest of what is in place ----------

  /** The file in place has the digest the manifest announced. */
  ghost predicate DigestMatches(sc: Scenario, files: map<string, Bytes>) {
    sc.manifest.filename in files && sc.hash(files[sc.manifest.filename]) == sc.manifest.rootHash
  }

  /** Holds in runs that start from any directory contents whatever. */
  ghost predicate DigestInv(sc: Scenario, w: World) {
    && (forall msg :: msg in w.toReceiver && msg.Offer? ==> msg.manifest == sc.manifest)
    && (w.receiver.Receiving? ==> w.receiver.manifest == sc.manifest)
    && (w.completed ==> DigestMatches(sc, w.files))
    && ((exists msg :: msg in w.toSender && msg.Complete?) ==> DigestMatches(sc, w.files))
  }

  lemma HandleKeepsDigest(sc: Scenario, w: World, msg: Message)
    requires DigestInv(sc, w) && msg in w.toReceiver
    ensures var out := ReceiverHandle(sc.hash, w.files, w.receiver, msg);
            && (DigestMatches(sc, w.files) ==> DigestMatches(sc, out.files))
            && (out.phase.Receiving? ==> out.phase.manifest == sc.manifest)
            && ((exists reply :: reply in out.replies && reply.Complete?) ==> DigestMatches(sc, out.files))
  {
  }

  lemma StepKeepsDigest(sc: Scenario, w: World, step: Step, w': World)
    requires |sc.source| == sc.manifest.totalSize && DigestInv(sc, w) && Next(sc, w, step, w')
    ensures DigestInv(sc, w')
  {
    assert |PartPath(sc.manifest)| != |sc.manifest.filename|;
    if step.TakeAtReceiver? || step.ReceiverDies? {
      HandleKeepsDigest(sc, w, w.toReceiver[0]);
    }
  }

  /** Whatever was in the directory at the start, the sender sees `Complete` only if the file in place has
      the source's digest. */
  lemma {:induction false} CompletionImpliesDigest(sc: Scenario, files: map<string, Bytes>, run: seq<World>, i: nat)
    requires |sc.source| == sc.manifest.totalSize && IsRunFrom(sc, files, run) && i < |run|
    ensures DigestInv(sc, run[i])
    ensures run[i].completed ==> DigestMatches(sc, run[i].files)
  {
    if i == 0 {
    } else {
      CompletionImpliesDigest(sc, files, run, i - 1);
      var step :| Next(sc, run[i - 1], step, run[i]);
      StepKeepsDigest(sc, run[i - 1], step, run[i]);
    }
  }
}
