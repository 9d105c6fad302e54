/**
 The receive loop against a sender that may send anything (tools/bridge-cli/src/node.rs, `handle_file_transfer`): what
 each reply answers, what is on disk by then, and where it all ends.
 */
module AnySender {
  import opened Common
  import opened Chunks
  import opened Receiver
  import opened TransferProtocol

  type Files = map<string, Bytes>

  /** The chunk belongs to the file, has the hash it claims and exactly fills its slot of 65536 bytes, the last of which
      is as long as the file leaves it. */
  predicate Fills(hash: Bytes -> Digest, m: Manifest, c: FileChunk) {
    && c.fileId == m.fileId && hash(c.data) == c.hash
    && c.index < m.totalChunks && c.offset == c.index * 65536 && |c.data| <= 65536
    && (c.index + 1 < m.totalChunks ==> |c.data| == 65536)
    && (c.index + 1 == m.totalChunks ==>
          (m.totalSize - |c.data|) % 65536 == 0 && (|c.data| == 0 <==> m.totalSize == 0))
  }

  lemma LastLength(total: nat, length: nat)
    ensures length == (if total % 65536 == 0 && total > 0 then 65536 else total % 65536) <==>
            length <= 65536 && (total - length) % 65536 == 0 && (length == 0 <==> total == 0)
  {
  }

  /** For every manifest and index: there is a size exactly for the indices below the chunk count, 65536 for all but the
      last, and for that one what the file leaves. */
  lemma SizeExactlyIfInRange(m: Manifest, index: nat)
    ensures match ExpectedChunkSize(m, index)
            case Err(e) => e == ChunkOutOfBounds && index >= m.totalChunks
            case Ok(size) =>
              && index < m.totalChunks && (index + 1 < m.totalChunks ==> size == 65536)
              && (index + 1 == m.totalChunks ==>
                    size <= 65536 && (m.totalSize - size) % 65536 == 0 && (size == 0 <==> m.totalSize == 0))
  {
    if index + 1 == m.totalChunks {
      LastLength(m.totalSize, ExpectedChunkSize(m, index).value);
    }
  }

  /** For every manifest, consistent or not, exactly these chunks pass the checks. */
  lemma AcceptedExactlyIfFills(hash: Bytes -> Digest, m: Manifest, c: FileChunk)
    ensures CheckChunk(hash, m, c).None? <==> Fills(hash, m, c)
  {
    LastLength(m.totalSize, |c.data|);
  }

  /** The bytes of the chunk are in its slot. */
  predicate InSlot(file: Bytes, c: FileChunk) {
    c.data == [] || (c.offset + |c.data| <= |file| && file[c.offset..c.offset + |c.data|] == c.data)
  }

  lemma WritePlaces(file: Bytes, c: FileChunk)
    ensures InSlot(WriteAt(file, c.offset, c.data), c)
  {
  }

  /** Nothing outside the slot has changed; a gap before it reads as zeros. */
  ghost predicate SameOutside(before: Bytes, after: Bytes, c: FileChunk) {
    && |before| <= |after| && (c.data == [] ==> after == before)
    && (forall p :: 0 <= p < |before| && !(c.offset <= p < c.offset + |c.data|) ==> after[p] == before[p])
    && (forall p :: |before| <= p < |after| && !(c.offset <= p < c.offset + |c.data|) ==> after[p] == 0 && p < c.offset)
  }

  lemma WriteKeeps(file: Bytes, c: FileChunk)
    ensures SameOutside(file, WriteAt(file, c.offset, c.data), c)
  {
  }

  // ---------- one message ----------

  /** The directory differs in this one file at most. */
  ghost predicate OnlyTouches(before: Files, after: Files, path: string) {
    after - {path} == before - {path}
  }

  /** An offer is answered with the number of whole chunks kept from the partial file, and nothing else is kept. */
  ghost predicate AnswersOffer(files: Files, m: Manifest, out: ReceiverOut) {
    var part := PartPath(m);
    var existing := Existing(files, part);
    var k := Min((|existing| / 65536) % 0x1_0000_0000, m.totalChunks);
    && out.replies == [Accept(m.fileId, k)]
    && out.phase == Receiving(m, Below(k))
    && OnlyTouches(files, out.files, part) && part in out.files
    && k * 65536 <= |existing|
    && out.files[part] == if m.totalChunks == 0 then existing else existing[..k * 65536]
  }

  /** A chunk is acknowledged once its bytes are in place. */
  ghost predicate AnswersChunk(files: Files, m: Manifest, received: set<nat>, c: FileChunk, out: ReceiverOut) {
    var part := PartPath(m);
    && out.replies == [Ack(m.fileId, c.index)]
    && out.phase == Receiving(m, received + {c.index})
    && OnlyTouches(files, out.files, part) && part in out.files
    && InSlot(out.files[part], c) && part in files && SameOutside(files[part], out.files[part], c)
  }

  /** The closing message is right: same file, same digest, every chunk here, and the digest is that of the bytes. */
  ghost predicate Completes(hash: Bytes -> Digest, files: Files, m: Manifest, received: set<nat>, msg: Message) {
    && msg == Finished(m.fileId, m.rootHash)
    && (forall i: nat :: i < m.totalChunks ==> i in received)
    && PartPath(m) in files && hash(files[PartPath(m)]) == m.rootHash
  }

  ghost predicate AnswersFinish(files: Files, m: Manifest, out: ReceiverOut) {
    && out.replies == [Complete(m.fileId)] && out.phase == Waiting
    && PartPath(m) in files && PartPath(m) !in out.files
    && m.filename in out.files && out.files[m.filename] == files[PartPath(m)]
    && out.files - {m.filename} == files - {PartPath(m), m.filename}
  }

  /** Nothing was sent and nothing written. */
  ghost predicate Silent(files: Files, out: ReceiverOut) {
    out.replies == [] && out.files == files
  }

  /** What one message leads to: in a transfer anything but a chunk that fills its slot and the right closing message,
      be it a bad chunk, a cancellation, another offer or no transfer message at all, ends it in silence. */
  ghost predicate Verdict(hash: Bytes -> Digest, files: Files, phase: ReceiverPhase, msg: Message, out: ReceiverOut) {
    match phase
    case Closed => Silent(files, out) && out.phase == Closed
    case Waiting =>
      if msg.Offer? then AnswersOffer(files, msg.manifest, out) else Silent(files, out) && out.phase == Waiting
    case Receiving(m, received) =>
      if msg.Data? && Fills(hash, m, msg.chunk) then AnswersChunk(files, m, received, msg.chunk, out)
      else if Completes(hash, files, m, received, msg) then AnswersFinish(files, m, out)
      else Silent(files, out) && out.phase == Closed
  }

  /** The indices on record are the file's, and the partial file is there. */
  ghost predicate Proper(files: Files, phase: ReceiverPhase) {
    phase.Receiving? ==> phase.received <= Below(phase.manifest.totalChunks) && PartPath(phase.manifest) in files
  }

  lemma OfferVerdict(hash: Bytes -> Digest, files: Files, m: Manifest)
    ensures AnswersOffer(files, m, ReceiverHandle(hash, files, Waiting, Offer(m)))
  {
    var existing := Existing(files, PartPath(m));
    ResumePointFits(m, existing);
    if existing == [] {
      assert 0 / 65536 == 0;
    }
  }

  lemma ChunkVerdict(hash: Bytes -> Digest, files: Files, m: Manifest, received: set<nat>, c: FileChunk)
    requires PartPath(m) in files
    ensures var out := ReceiverHandle(hash, files, Receiving(m, received), Data(c));
            if Fills(hash, m, c) then AnswersChunk(files, m, received, c, out)
            else Silent(files, out) && out.phase == Closed
  {
    AcceptedExactlyIfFills(hash, m, c);
    WritePlaces(files[PartPath(m)], c);
    WriteKeeps(files[PartPath(m)], c);
  }

  lemma FinishVerdict(hash: Bytes -> Digest, files: Files, m: Manifest, received: set<nat>, msg: Message)
    requires msg.Finished? && PartPath(m) in files && received <= Below(m.totalChunks)
    ensures var out := ReceiverHandle(hash, files, Receiving(m, received), msg);
            if Completes(hash, files, m, received, msg) then AnswersFinish(files, m, out)
            else Silent(files, out) && out.phase == Closed
  {
    CompleteIsEverything(m, received);
    assert |PartPath(m)| == |m.filename| + 5;
  }

  lemma OneMessage(hash: Bytes -> Digest, files: Files, phase: ReceiverPhase, msg: Message)
    requires Proper(files, phase)
    ensures var out := ReceiverHandle(hash, files, phase, msg);
            Verdict(hash, files, phase, msg, out) && Proper(out.files, out.phase)
  {
    match phase
    case Closed =>
    case Waiting =>
      if msg.Offer? {
        OfferVerdict(hash, files, msg.manifest);
      }
    case Receiving(m, received) =>
      match msg
      case Data(c) => ChunkVerdict(hash, files, m, received, c);
      case Finished(_, _) => FinishVerdict(hash, files, m, received, msg);
      case _ =>
  }

  // ---------- whole runs ----------

  /** The receiver, at first waiting, after the first `n` messages. */
  function At(hash: Bytes -> Digest, files: Files, inbound: seq<Message>, n: nat): ReceiverOut
    requires n <= |inbound|
  {
    ReceiverRun(hash, files, Waiting, inbound[..n])
  }

  lemma NextAt(hash: Bytes -> Digest, files: Files, inbound: seq<Message>, n: nat)
    requires n < |inbound|
    ensures var before := At(hash, files, inbound, n);
            var last := ReceiverHandle(hash, before.files, before.phase, inbound[n]);
            At(hash, files, inbound, n + 1) == last.(replies := before.replies + last.replies)
  {
    assert inbound[..n + 1] == inbound[..n] + [inbound[n]];
    ReceiverRunSnoc(hash, files, Waiting, inbound[..n], inbound[n]);
  }

  lemma ProperNext(hash: Bytes -> Digest, files: Files, inbound: seq<Message>, n: nat, now: ReceiverOut,
                   next: ReceiverOut)
    requires n < |inbound| && now == At(hash, files, inbound, n) && next == At(hash, files, inbound, n + 1)
    requires Proper(now.files, now.phase)
    ensures Proper(next.files, next.phase)
  {
    NextAt(hash, files, inbound, n);
    OneMessage(hash, now.files, now.phase, inbound[n]);
  }

  lemma {:induction false} ProperAt(hash: Bytes -> Digest, files: Files, inbound: seq<Message>, n: nat)
    requires n <= |inbound|
    ensures Proper(At(hash, files, inbound, n).files, At(hash, files, inbound, n).phase)
  {
    if n == 0 {
    } else {
      ProperAt(hash, files, inbound, n - 1);
      ProperNext(hash, files, inbound, n - 1, At(hash, files, inbound, n - 1), At(hash, files, inbound, n));
    }
  }

  /** Message `n` was answered with `replies` and left the receiver as it should. */
  ghost predicate HandledAt(hash: Bytes -> Digest, files: Files, inbound: seq<Message>, n: nat, replies: seq<Message>)
    requires n < |inbound|
  {
    var before, after := At(hash, files, inbound, n), At(hash, files, inbound, n + 1);
    && after.replies == before.replies + replies
    && Verdict(hash, before.files, before.phase, inbound[n], ReceiverOut(after.files, after.phase, replies))
  }

  lemma EveryMessageHandled(hash: Bytes -> Digest, files: Files, inbound: seq<Message>, n: nat)
    returns (replies: seq<Message>)
    requires n < |inbound|
    ensures HandledAt(hash, files, inbound, n, replies) && |replies| <= 1
  {
    var before := At(hash, files, inbound, n);
    ProperAt(hash, files, inbound, n);
    NextAt(hash, files, inbound, n);
    OneMessage(hash, before.files, before.phase, inbound[n]);
    replies := ReceiverHandle(hash, before.files, before.phase, inbound[n]).replies;
  }

  lemma ClosedNext(hash: Bytes -> Digest, files: Files, inbound: seq<Message>, n: nat)
    requires n < |inbound| && At(hash, files, inbound, n).phase == Closed
    ensures At(hash, files, inbound, n + 1) == At(hash, files, inbound, n)
  {
    NextAt(hash, files, inbound, n);
    assert At(hash, files, inbound, n).replies + [] == At(hash, files, inbound, n).replies;
  }

  lemma {:induction false} ClosedForGood(hash: Bytes -> Digest, files: Files, inbound: seq<Message>, n: nat, end: nat)
    requires n <= end <= |inbound| && At(hash, files, inbound, n).phase == Closed
    ensures At(hash, files, inbound, end) == At(hash, files, inbound, n)
    decreases end
  {
    if n == end {
    } else {
      ClosedForGood(hash, files, inbound, n, end - 1);
      ClosedNext(hash, files, inbound, end - 1);
    }
  }

  /** The first message of a transfer that is neither a chunk filling its slot nor the right closing message ends it:
      whatever follows, there is no further reply and the directory stays as it was. */
  lemma FirstBadMessageEndsIt(hash: Bytes -> Digest, files: Files, inbound: seq<Message>, n: nat)
    requires n < |inbound| && At(hash, files, inbound, n).phase.Receiving?
    requires var before := At(hash, files, inbound, n); var m := before.phase.manifest;
             && !(inbound[n].Data? && Fills(hash, m, inbound[n].chunk))
             && !Completes(hash, before.files, m, before.phase.received, inbound[n])
    ensures ReceiverRun(hash, files, Waiting, inbound) == At(hash, files, inbound, n).(phase := Closed)
  {
    var replies := EveryMessageHandled(hash, files, inbound, n);
    var before := At(hash, files, inbound, n);
    assert before.replies + [] == before.replies;
    ClosedForGood(hash, files, inbound, n + 1, |inbound|);
    assert inbound[..|inbound|] == inbound;
  }

  // ---------- a transfer under way ----------

  /** From message `a` on, every message was a chunk of `m` that fills its slot. */
  ghost predicate ChunksSince(hash: Bytes -> Digest, inbound: seq<Message>, a: nat, n: nat, m: Manifest) {
    a < n <= |inbound| && forall j :: a < j < n ==> inbound[j].Data? && Fills(hash, m, inbound[j].chunk)
  }

  /** And each of them, in order, was acknowledged, after the answer to the offer. */
  ghost predicate Acknowledged(inbound: seq<Message>, a: nat, n: nat, m: Manifest, before: seq<Message>,
                               replies: seq<Message>)
    requires a < n <= |inbound| && forall j :: a < j < n ==> inbound[j].Data?
  {
    && |replies| == |before| + n - a - 1 && replies[..|before|] == before
    && forall j :: a < j < n ==> replies[|before| + j - a - 1] == Ack(m.fileId, inbound[j].chunk.index)
  }

  /** The partial file holds every chunk in its slot, the latest where there are several for one slot; and the slots
      that none was sent for hold what they held when the transfer began. */
  ghost predicate HoldsChunks(inbound: seq<Message>, a: nat, n: nat, kept: Bytes, file: Bytes)
    requires a < n <= |inbound| && forall j :: a < j < n ==> inbound[j].Data?
  {
    && (forall j :: a < j < n && (forall l :: j < l < n ==> inbound[l].chunk.index != inbound[j].chunk.index) ==>
          InSlot(file, inbound[j].chunk))
    && |kept| <= |file|
    && forall p :: 0 <= p < |kept| && (forall j :: a < j < n ==> inbound[j].chunk.index != p / 65536) ==>
         file[p] == kept[p]
  }

  ghost function IndicesSent(inbound: seq<Message>, a: nat, n: nat): set<nat>
    requires a < n <= |inbound|
  {
    set j | a < j < n && inbound[j].Data? :: inbound[j].chunk.index
  }

  lemma ChunksOneMore(hash: Bytes -> Digest, inbound: seq<Message>, a: nat, n: nat, m: Manifest)
    requires n < |inbound| && ChunksSince(hash, inbound, a, n, m)
    requires inbound[n].Data? && Fills(hash, m, inbound[n].chunk)
    ensures ChunksSince(hash, inbound, a, n + 1, m)
  {
  }

  lemma SlotKept(hash: Bytes -> Digest, m: Manifest, file: Bytes, file': Bytes, c: FileChunk, d: FileChunk)
    requires Fills(hash, m, c) && Fills(hash, m, d) && c.index != d.index
    requires InSlot(file, d) && SameOutside(file, file', c)
    ensures InSlot(file', d)
  {
    if d.data != [] {
      assert c.offset + 65536 <= d.offset || d.offset + 65536 <= c.offset;
      forall p | d.offset <= p < d.offset + |d.data| ensures file'[p] == file[p] {
      }
    }
  }

  lemma HoldsOneMore(hash: Bytes -> Digest, inbound: seq<Message>, a: nat, n: nat, m: Manifest, kept: Bytes,
                     file: Bytes, file': Bytes)
    requires a < n < |inbound| && ChunksSince(hash, inbound, a, n + 1, m)
    requires HoldsChunks(inbound, a, n, kept, file)
    requires InSlot(file', inbound[n].chunk) && SameOutside(file, file', inbound[n].chunk)
    ensures HoldsChunks(inbound, a, n + 1, kept, file')
  {
    var c := inbound[n].chunk;
    forall j | a < j < n + 1 && (forall l :: j < l < n + 1 ==> inbound[l].chunk.index != inbound[j].chunk.index)
      ensures InSlot(file', inbound[j].chunk)
    {
      if j < n {
        SlotKept(hash, m, file, file', c, inbound[j].chunk);
      }
    }
    forall p | 0 <= p < |kept| && (forall j :: a < j < n + 1 ==> inbound[j].chunk.index != p / 65536)
      ensures file'[p] == kept[p]
    {
      assert c.index != p / 65536;
      assert !(c.offset <= p < c.offset + 65536);
    }
  }

  /** Before message `a` the receiver stood at `before`, after it at `first`, and before message `n` it stands at
      `now`: it has taken the offer of `m` and every chunk since. */
  ghost predicate Took(hash: Bytes -> Digest, inbound: seq<Message>, a: nat, n: nat, m: Manifest, before: ReceiverOut,
                       first: ReceiverOut, now: ReceiverOut) {
    var part := PartPath(m);
    && ChunksSince(hash, inbound, a, n, m) && inbound[a] == Offer(m)
    && before.phase == Waiting && first.phase.Receiving?
    && now.phase == Receiving(m, first.phase.received + IndicesSent(inbound, a, n))
    && Acknowledged(inbound, a, n, m, first.replies, now.replies)
    && OnlyTouches(before.files, now.files, part) && part in first.files && part in now.files
    && HoldsChunks(inbound, a, n, first.files[part], now.files[part])
  }

  /** The transfer of `m` that message `a` began, as it stands before message `n`. */
  ghost predicate Underway(hash: Bytes -> Digest, files: Files, inbound: seq<Message>, a: nat, n: nat, m: Manifest) {
    && a < n <= |inbound|
    && Took(hash, inbound, a, n, m, At(hash, files, inbound, a), At(hash, files, inbound, a + 1),
            At(hash, files, inbound, n))
  }

  lemma UnderwayBegins(hash: Bytes -> Digest, files: Files, inbound: seq<Message>, a: nat)
    requires a < |inbound| && At(hash, files, inbound, a).phase == Waiting && inbound[a].Offer?
    ensures Underway(hash, files, inbound, a, a + 1, inbound[a].manifest)
  {
    var replies := EveryMessageHandled(hash, files, inbound, a);
    var first := At(hash, files, inbound, a + 1);
    assert IndicesSent(inbound, a, a + 1) == {};
    assert first.phase.received + {} == first.phase.received;
  }

  lemma ChunkTaken(hash: Bytes -> Digest, files: Files, inbound: seq<Message>, n: nat, m: Manifest, received: set<nat>)
    requires n < |inbound| && At(hash, files, inbound, n).phase == Receiving(m, received)
    requires inbound[n].Data? && Fills(hash, m, inbound[n].chunk)
    ensures var now, next, c := At(hash, files, inbound, n), At(hash, files, inbound, n + 1), inbound[n].chunk;
            && next.replies == now.replies + [Ack(m.fileId, c.index)]
            && AnswersChunk(now.files, m, received, c, ReceiverOut(next.files, next.phase, [Ack(m.fileId, c.index)]))
  {
    var replies := EveryMessageHandled(hash, files, inbound, n);
  }

  lemma AcknowledgedOneMore(inbound: seq<Message>, a: nat, n: nat, m: Manifest, before: seq<Message>,
                            replies: seq<Message>)
    requires a < n < |inbound| && forall j :: a < j < n + 1 ==> inbound[j].Data?
    requires Acknowledged(inbound, a, n, m, before, replies)
    ensures Acknowledged(inbound, a, n + 1, m, before, replies + [Ack(m.fileId, inbound[n].chunk.index)])
  {
  }

  lemma IndicesOneMore(inbound: seq<Message>, a: nat, n: nat)
    requires a < n < |inbound| && inbound[n].Data?
    ensures IndicesSent(inbound, a, n + 1) == IndicesSent(inbound, a, n) + {inbound[n].chunk.index}
  {
  }

  lemma TookOneMore(hash: Bytes -> Digest, inbound: seq<Message>, a: nat, n: nat, m: Manifest, before: ReceiverOut,
                    first: ReceiverOut, now: ReceiverOut, next: ReceiverOut)
    requires a < n < |inbound| && Took(hash, inbound, a, n, m, before, first, now)
    requires inbound[n].Data? && Fills(hash, m, inbound[n].chunk)
    requires next.replies == now.replies + [Ack(m.fileId, inbound[n].chunk.index)]
    requires AnswersChunk(now.files, m, now.phase.received, inbound[n].chunk,
                          ReceiverOut(next.files, next.phase, [Ack(m.fileId, inbound[n].chunk.index)]))
    ensures Took(hash, inbound, a, n + 1, m, before, first, next)
  {
    var part := PartPath(m);
    ChunksOneMore(hash, inbound, a, n, m);
    HoldsOneMore(hash, inbound, a, n, m, first.files[part], now.files[part], next.files[part]);
    AcknowledgedOneMore(inbound, a, n, m, first.replies, now.replies);
    IndicesOneMore(inbound, a, n);
    var sent, index := IndicesSent(inbound, a, n), inbound[n].chunk.index;
    assert first.phase.received + sent + {index} == first.phase.received + (sent + {index});
  }

  lemma UnderwayGoesOn(hash: Bytes -> Digest, files: Files, inbound: seq<Message>, a: nat, n: nat, m: Manifest)
    requires n < |inbound| && Underway(hash, files, inbound, a, n, m)
    requires inbound[n].Data? && Fills(hash, m, inbound[n].chunk)
    ensures Underway(hash, files, inbound, a, n + 1, m)
  {
    var now := At(hash, files, inbound, n);
    ChunkTaken(hash, files, inbound, n, m, now.phase.received);
    TookOneMore(hash, inbound, a, n, m, At(hash, files, inbound, a), At(hash, files, inbound, a + 1), now,
                At(hash, files, inbound, n + 1));
  }

  lemma ReceivingBecause(hash: Bytes -> Digest, files: Files, inbound: seq<Message>, n: nat)
    requires n < |inbound| && At(hash, files, inbound, n + 1).phase.Receiving?
    ensures var phase := At(hash, files, inbound, n).phase;
            || (phase == Waiting && inbound[n].Offer?)
            || (phase.Receiving? && inbound[n].Data? && Fills(hash, phase.manifest, inbound[n].chunk))
  {
    var replies := EveryMessageHandled(hash, files, inbound, n);
  }

  lemma UnderwayManifest(hash: Bytes -> Digest, files: Files, inbound: seq<Message>, a: nat, n: nat, m: Manifest)
    requires Underway(hash, files, inbound, a, n, m)
    ensures At(hash, files, inbound, n).phase.Receiving? && At(hash, files, inbound, n).phase.manifest == m
  {
  }

  /** Over every inbound sequence: a transfer that is under way began with an offer; every message since was a chunk
      that fills its slot and was acknowledged in turn; the indices on record are those kept and those sent; and the
      partial file holds them, with nothing else in the directory touched. */
  lemma {:induction false} TransferSoFar(hash: Bytes -> Digest, files: Files, inbound: seq<Message>, n: nat)
    returns (a: nat, m: Manifest)
    requires n <= |inbound| && At(hash, files, inbound, n).phase.Receiving?
    ensures Underway(hash, files, inbound, a, n, m)
    decreases n
  {
    assert n > 0;
    ReceivingBecause(hash, files, inbound, n - 1);
    if At(hash, files, inbound, n - 1).phase == Waiting {
      a, m := n - 1, inbound[n - 1].manifest;
      UnderwayBegins(hash, files, inbound, n - 1);
    } else {
      a, m := TransferSoFar(hash, files, inbound, n - 1);
      UnderwayManifest(hash, files, inbound, a, n - 1, m);
      UnderwayGoesOn(hash, files, inbound, a, n - 1, m);
    }
  }

  // ---------- every reply is earned ----------

  /** Reply number `r` was given to message `n`. */
  ghost predicate GivenAt(hash: Bytes -> Digest, files: Files, inbound: seq<Message>, n: nat, r: nat, reply: Message) {
    n < |inbound| && |At(hash, files, inbound, n).replies| == r && HandledAt(hash, files, inbound, n, [reply])
  }

  lemma RepliesGrow(hash: Bytes -> Digest, files: Files, inbound: seq<Message>, n: nat)
    requires n < |inbound|
    ensures var before, after := At(hash, files, inbound, n).replies, At(hash, files, inbound, n + 1).replies;
            before <= after && |after| <= |before| + 1
  {
    var replies := EveryMessageHandled(hash, files, inbound, n);
  }

  /** The message before which there were `r` replies and after which there was one more. */
  lemma {:induction false} ReplyAppears(hash: Bytes -> Digest, files: Files, inbound: seq<Message>, end: nat, r: nat)
    returns (n: nat)
    requires end <= |inbound| && r < |At(hash, files, inbound, end).replies|
    ensures n < end && |At(hash, files, inbound, n).replies| == r < |At(hash, files, inbound, n + 1).replies|
    ensures At(hash, files, inbound, n + 1).replies[r] == At(hash, files, inbound, end).replies[r]
    decreases end
  {
    assert end > 0;
    RepliesGrow(hash, files, inbound, end - 1);
    var before, after := At(hash, files, inbound, end - 1).replies, At(hash, files, inbound, end).replies;
    if r < |before| {
      assert before[r] == after[r];
      n := ReplyAppears(hash, files, inbound, end - 1, r);
    } else {
      n := end - 1;
    }
  }

  lemma ReplyGivenAt(hash: Bytes -> Digest, files: Files, inbound: seq<Message>, end: nat, r: nat) returns (n: nat)
    requires end <= |inbound| && r < |At(hash, files, inbound, end).replies|
    ensures n < end && GivenAt(hash, files, inbound, n, r, At(hash, files, inbound, end).replies[r])
  {
    n := ReplyAppears(hash, files, inbound, end, r);
    var replies := EveryMessageHandled(hash, files, inbound, n);
    assert replies == [At(hash, files, inbound, n + 1).replies[r]];
  }

  /** Whatever is sent, every acknowledgement answers a chunk of the file on offer that has that index, a matching hash
      and its slot's offset and length, and by then its bytes are on disk in that slot. */
  lemma EveryAckIsEarned(hash: Bytes -> Digest, files: Files, inbound: seq<Message>, r: nat)
    returns (a: nat, n: nat, m: Manifest)
    requires var replies := ReceiverRun(hash, files, Waiting, inbound).replies; r < |replies| && replies[r].Ack?
    ensures a < n < |inbound| && Underway(hash, files, inbound, a, n, m)
    ensures inbound[n].Data? && Fills(hash, m, inbound[n].chunk)
    ensures ReceiverRun(hash, files, Waiting, inbound).replies[r] == Ack(m.fileId, inbound[n].chunk.index)
    ensures |At(hash, files, inbound, n).replies| == r
    ensures var now, next := At(hash, files, inbound, n), At(hash, files, inbound, n + 1);
            var part := PartPath(m);
            && part in now.files && part in next.files && OnlyTouches(now.files, next.files, part)
            && InSlot(next.files[part], inbound[n].chunk)
            && SameOutside(now.files[part], next.files[part], inbound[n].chunk)
  {
    assert inbound[..|inbound|] == inbound;
    n := ReplyGivenAt(hash, files, inbound, |inbound|, r);
    assert At(hash, files, inbound, n).phase.Receiving?;
    a, m := TransferSoFar(hash, files, inbound, n);
  }

  /** And every notice of completion answers the right closing message of a transfer all of whose chunks are here, and
      puts its bytes, which have the announced digest, under the announced name. */
  lemma EveryCompletionIsEarned(hash: Bytes -> Digest, files: Files, inbound: seq<Message>, r: nat)
    returns (a: nat, n: nat, m: Manifest)
    requires var replies := ReceiverRun(hash, files, Waiting, inbound).replies; r < |replies| && replies[r].Complete?
    ensures a < n < |inbound| && Underway(hash, files, inbound, a, n, m)
    ensures var now, next := At(hash, files, inbound, n), At(hash, files, inbound, n + 1);
            && |now.replies| == r && ReceiverRun(hash, files, Waiting, inbound).replies[r] == Complete(m.fileId)
            && Completes(hash, now.files, m, now.phase.received, inbound[n])
            && m.filename in next.files && hash(next.files[m.filename]) == m.rootHash
            && AnswersFinish(now.files, m, ReceiverOut(next.files, next.phase, [Complete(m.fileId)]))
  {
    assert inbound[..|inbound|] == inbound;
    n := ReplyGivenAt(hash, files, inbound, |inbound|, r);
    assert At(hash, files, inbound, n).phase.Receiving?;
    a, m := TransferSoFar(hash, files, inbound, n);
  }
}
