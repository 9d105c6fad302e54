# BridgeOS protocol cores, verified in Dafny

This project models the stateful parts of BridgeOS, a system that lets nearby devices exchange files,
clipboard contents and notifications, and proves what those parts guarantee over whole runs:

- **File transfer** (`Chunks`, `Sender`, `Receiver`, `TransferProtocol`, `AnySender`, `TransferSessions`,
  `PartialFiles`): 64 KiB chunks, a receiver on disk or in memory, the stop-and-wait protocol between them, a sender that
  sends anything at all, and any number of sessions, each of which may be cut off at any point, including in the middle
  of a write.
- **Clipboard** (`EchoGuard`, `ClipboardEngine`, `ClipboardRuns`, `ClipboardBound`, `LocalSequence`): the echo guard,
  the sync engine over the in-memory backend with its bounded monitor channel, and concurrent local calls.
- **Notifications** (`NotificationGuard`, `NotificationEngine`, `NotificationRuns`, `NotificationHistory`): the guard's
  three structures, the per-origin mirror and the four kinds of message, and every state traced back to its messages.
- **Pairing and sessions** (`Sas`, `Pairing`, `Ceremony`, `PairingRuns`, `PairingNetwork`, `Session`,
  `CeremonyOutcome`): the short authentication string, the two-party ceremony in every interleaving, any number of
  parties against a network that delivers anything, the trust gate in front of application channels, with many sessions
  sharing one trust store, and how a ceremony ends over any frames.
- **Framing, text and discovery** (`Framing`, `Utf8`, `PeerDirectory`, `Discovery`): the wire format, UTF-8
  truncation, and two workers that share one peer directory.

Each component has the same shape. Its state is a value and its operations are functions on that value; where
the program updates objects in place there is also a class whose methods are proved equal to those functions,
loops and all; and the results are lemmas about every sequence of operations. Hash functions, Ed25519, the
payload codec and the privacy policies are parameters; time, random nonces, the human's answers, the sizes of
file reads and the order of hash maps are inputs.

`dafny verify dfyconfig.toml` checks everything.

## What the results rest on

- A transfer scenario (`TransferProtocol.Good`) is a file and the manifest computed from it, with at most
  (2^32 - 1) * 65536 bytes. `Chunks.SizesSumToTotalExactlyWithinBound` shows that this bound is exact: above it the
  32-bit chunk count drops part of the file. Sessions follow one another; two connections writing the same
  partial file at once are not covered. The partial file is found by name only. `TransferSessions` starts with no
  partial file or one left by the same source; `PartialFiles` starts with any directory contents, and its results hold
  whether or not digests collide.
- A write that is interrupted leaves a prefix of the chunk.
- Signing and verifying satisfy `Pairing.Sound`. `PairingNetwork.StoredPeerConfirmed` assumes instead only that,
  if a delivered confirmation verifies under another party's key for the receiver's own commitment, that key has signed
  this commitment (`PairingNetwork.Genuine`); there may be any number of such signatures, and nothing is assumed of
  what else they verify for. Node ids, keys and nonces have 32 bytes there, as their types in the program say.
- Digests are byte strings of any length; `ShortAuth.ShownDigits` asks for at least eight bytes, and SHA-256 gives 32.
- Frames decode to what was encoded (`Framing.RoundTrips`).
- A clipboard engine's `handle_*` call is one step, except in `LocalSequence`, which splits it at its locks.

## Where code and documentation differ

The model follows the code.

- `recv_frame` documents `Ok(None)` as a clean end at a frame boundary
  (crates/bridge-transport/src/framed.rs:24). It also returns it when the stream ends inside a header, which is what
  `Framing.TruncatedStream` states.
- A comment in the notification guard says that content posted again after a dismissal is accepted
  (crates/bridge-notifications/src/guard.rs:87-88). The engine refuses it for as long as the id is tracked; that is
  what keeps the guard consistent, as `NotificationGuards.PostConsistentExactly` shows.
- The eviction ring is documented as bounding ids per origin (crates/bridge-notifications/src/guard.rs:5-6). It is one
  ring for all origins, and `NotificationRuns.LeavesAfterLifetime` counts insertions from all of them.
- docs/PROTOCOL.md gives a minimum payload of one byte (docs/PROTOCOL.md:21). The length check admits zero; that a
  frame does not decode from no bytes is left to the codec.
- `execute_pairing` reports and logs the node that authenticated in the handshake, but saves the one named in the hello
  (crates/bridge-session/src/session.rs:451-463); `Sessions.PairingTrustsTheNamedNode` says when these agree.

## Model

| member | source | states |
|---|---|---|
| Chunks.ChunkGeometry | crates/bridge-transfer/src/message.rs:52-72 | Every chunk starts at its offset, has the advertised size, is not empty and ends where the next starts; only the last reaches the end of the file; no offset overflows 64 bits |
| Chunks.SizesSumToTotalExactlyWithinBound | crates/bridge-transfer/src/message.rs:25-49 | The advertised sizes add up to the file size if and only if the size is at most (2^32 - 1) * 65536 |
| Chunks.OversizedFileHasNoChunks | crates/bridge-transfer/src/message.rs:25-32 | The smallest file above the bound is announced as having no chunks |
| Chunks.PayloadOfChunks | crates/bridge-transfer/src/sender.rs:108-130 | The chunks between any two indices carry exactly the source between their offsets |
| Sender.FileSender.Open | crates/bridge-transfer/src/sender.rs:31-64 | A start index past the end is refused; otherwise the cursor stands at that chunk |
| Sender.FileSender.SeekToChunk | crates/bridge-transfer/src/sender.rs:84-103 | Seeking moves cursor and index together, or changes nothing |
| Sender.FileSender.NextChunk | crates/bridge-transfer/src/sender.rs:108-130 | Successful reads and seeks in any mix keep the cursor at the chunk to be sent; on the described file the result is the honest chunk; a short read fails without advancing the index |
| Sender.FileSender.Drain | crates/bridge-transfer/src/sender.rs:108-130 | Reading to the end yields the source from the start chunk's first byte on |
| Receiver.FileReceiver.constructor | crates/bridge-transfer/src/receiver.rs:41-83 | Opening cuts a partial file back to whole chunks and records exactly the indices kept |
| Receiver.ScanNextExpected | crates/bridge-transfer/src/receiver.rs:102-118 | The scan finds the least missing index, and reaches the chunk count exactly when the counting test calls the file complete |
| Receiver.FileReceiver.NextExpectedChunk | crates/bridge-transfer/src/receiver.rs:102-108 | The same, for the receiver on disk |
| Receiver.CompleteIsEverything | crates/bridge-transfer/src/receiver.rs:111-118 | Counting and membership agree: complete if and only if every index has been received |
| Receiver.AcceptedExactlyIfInPlace | crates/bridge-transfer/src/receiver.rs:121-164 | A chunk passes the checks if and only if it belongs to the file, matches its hash and fills its own slot |
| Receiver.RefusedForTrueReason | crates/bridge-transfer/src/receiver.rs:121-164 | The error a chunk is refused with names something that is true of the chunk |
| Receiver.FileReceiver.ReceiveChunk | crates/bridge-transfer/src/receiver.rs:121-183 | A refused chunk changes neither set nor disk; an accepted one is written at its offset and recorded |
| Receiver.FileReceiver.HashOpenFile | crates/bridge-transfer/src/receiver.rs:207-218 | Whatever block sizes the reads return, the streamed digest is the digest of the file |
| Receiver.FileReceiver.FinalizeFile | crates/bridge-transfer/src/receiver.rs:189-235 | The file is renamed if and only if it is complete and its digest matches; every failure changes nothing |
| Receiver.MemoryReceiver.ReceiveChunk | crates/bridge-transfer/src/receiver.rs:121-183 | The buffer, copied in place, becomes exactly the specified overwrite |
| Receiver.MemoryReceiver.FinalizeMemory | crates/bridge-transfer/src/receiver.rs:238-263 | Fed the chunks of a source with the announced digest, in any order with duplicates and refused chunks between, it returns exactly that source if every index was accepted and an error if not; in general, incomplete is an error and so is a digest mismatch |
| Receiver.ReceiveTouchesOnlyItsSlot | crates/bridge-transfer/src/receiver.rs:173-179 | No chunk changes a byte outside its slot |
| Receiver.MemoryAssemblesSource | crates/bridge-transfer/src/receiver.rs:102-183 | Fed source chunks in any order with any duplicates and refused chunks between, the receiver is complete if and only if every index was accepted, and then holds exactly the source |
| TransferProtocol.ServeMessage | tools/bridge-cli/src/node.rs:456-510 | One turn of the receive loop does to disk, set and replies exactly what the message handler says |
| TransferProtocol.HandleFileTransfer | tools/bridge-cli/src/node.rs:405-519 | The receive loop's effect on the directory and its replies are the run of the message handler over the frames it consumed; it succeeds exactly on a finalized file |
| AnySender.AcceptedExactlyIfFills | crates/bridge-transfer/src/receiver.rs:121-164 | For every manifest, consistent or not, a chunk passes the checks if and only if it belongs to the file, has the hash it claims and exactly fills its slot |
| AnySender.SizeExactlyIfInRange | crates/bridge-transfer/src/message.rs:52-72 | For every manifest there is a chunk size exactly for the indices below the chunk count: 65536 for all but the last, and for that one what the file leaves |
| AnySender.EveryAckIsEarned | tools/bridge-cli/src/node.rs:457-474 | Whatever is sent, every acknowledgement answers a chunk of the file on offer with that index that fills its slot; by then its bytes are on disk there and nothing else has changed |
| AnySender.EveryCompletionIsEarned | tools/bridge-cli/src/node.rs:475-504 | Every notice of completion answers the right closing message of a transfer with all chunks here, and puts bytes with the announced digest under the announced name |
| AnySender.TransferSoFar | tools/bridge-cli/src/node.rs:415-474 | Over every inbound sequence, a transfer under way began with an offer and has seen nothing but chunks that fill their slots, each acknowledged in turn; the partial file holds the latest chunk of every slot sent for and what it held before elsewhere |
| AnySender.FirstBadMessageEndsIt | tools/bridge-cli/src/node.rs:447-511 | The first message that is neither such a chunk nor the right closing message, be it a bad chunk, a cancellation, an offer or no transfer message, ends the transfer: there is no further reply and the directory stays as it was |
| TransferProtocol.RunSendFile | tools/bridge-cli/src/client.rs:228-353 | What the send loop sends and whether it reports success is the run of the sender's handler over the peer's frames |
| TransferProtocol.StreamChunks | tools/bridge-cli/src/client.rs:269-317 | Either every chunk from the start was sent and acknowledged in order, or the loop stopped at the first missing or wrong acknowledgement |
| TransferProtocol.SenderHistory | tools/bridge-cli/src/client.rs:228-353 | Against any peer, a sender reports success only after the acceptance, every acknowledgement in order and the completion notice, having sent exactly the chunks from the start |
| TransferProtocol.CreateManifest | crates/bridge-transfer/src/manifest.rs:21-48 | The manifest describes the file, and is a scenario for the run results if and only if the size is within the bound |
| TransferSessions.TransferSafety | crates/bridge-transfer/src/receiver.rs:41-235 | Over any number of interrupted sessions: the partial file is a prefix of the source; once a sender has seen the completion notice the file in place is the source; no honest message makes either side give up, so the root hash never fails; a finished session sent exactly the rest of the file |
| TransferSessions.StepKeepsInv | tools/bridge-cli/src/node.rs:441-511 | Every step, crashes during open, write and rename included, keeps disk, receiver, sender and both channels in agreement |
| TransferSessions.HonestHandling | tools/bridge-cli/src/node.rs:457-504 | The next honest message is always accepted: a chunk extends the prefix and is acknowledged, the closing message puts the source in place |
| TransferSessions.ResumeAtWholeChunks | crates/bridge-transfer/src/receiver.rs:56-83 | After a crash leaving n bytes of the source the resume point is n / 65536, and exactly what lies behind that many full chunks is cut |
| TransferSessions.ShortLastChunkIsCut | crates/bridge-transfer/src/receiver.rs:59-70 | A file on disk in full is kept in full if and only if its size is a multiple of 65536; otherwise its short last chunk is cut and sent again |
| TransferSessions.WholeChunksAreNeverLost | crates/bridge-transfer/src/receiver.rs:56-83 | No step loses a whole chunk; the partial file goes away only by becoming the delivered file |
| TransferSessions.Settle | tools/bridge-cli/src/client.rs:262-353 | A session with both ends alive, left alone, ends with the sender done and the source delivered |
| TransferSessions.UninterruptedSessionDelivers | tools/bridge-cli/src/client.rs:262-353 | A session started on n bytes of partial file sends exactly the chunks from n / 65536 on and delivers the source |
| PartialFiles.WholeSessionOutcome | crates/bridge-transfer/src/receiver.rs:189-235 | Whatever the directory holds, the receiver run over the offer, the honest chunks from the resume point and the closing message assembles the file over what was kept, and delivers it if and only if its digest is the source's; otherwise it bails and the partial file stays |
| PartialFiles.ResumeIsSoundExactlyOnPrefixes | crates/bridge-transfer/src/receiver.rs:45-83 | With a partial file of any origin, that run ends with the source in place if and only if what was kept is a prefix of it |
| PartialFiles.SessionIsOfSender | tools/bridge-cli/src/client.rs:262-353 | The messages and replies of that run are those of the sender's own runs |
| PartialFiles.BadPartialFileNeverHeals | crates/bridge-transfer/src/receiver.rs:219-224 | A partial file whose assembly fails the digest check is resumed from and fails again, with the same bytes, in every one of any number of sessions |
| PartialFiles.DifferingDigestNeverCompletes | crates/bridge-transfer/src/receiver.rs:45-235 | From any directory, if the file an uninterrupted session would assemble has not the source's digest, then over any number of sessions interrupted anywhere no sender sees the completion notice, and the partial file is as it was found or a prefix of that same file no shorter than what was kept |
| PartialFiles.SomeRunCompletesExactlyIfDigestsAgree | tools/bridge-cli/src/client.rs:262-353 | From any directory, some run has a sender that sees the completion notice if and only if the digests agree |
| PartialFiles.CompletionImpliesDigest | crates/bridge-transfer/src/receiver.rs:218-228 | From any directory contents, the sender sees the completion notice only if the file in place has the source's digest |
| EchoGuards.PushRefines | crates/bridge-clipboard/src/guard.rs:78-91 | The FIFO is always the last entries of the log of hashes that entered, without duplicates, and the set mirrors it |
| EchoGuards.SuppressedExactlyWithinWindow | crates/bridge-clipboard/src/guard.rs:34-36 | A hash that has entered is suppressed if and only if fewer hashes than the capacity have entered since it did last |
| EchoGuards.NewGuardIsEmpty | crates/bridge-clipboard/src/guard.rs:19-31 | A new guard has an empty window of the given capacity, or of 256 for zero |
| EchoGuards.RecordedExactlyIfNew | crates/bridge-clipboard/src/guard.rs:47-64 | A receipt enters the window and moves its origin's number if and only if its hash is outside the window and its number newer; otherwise nothing changes |
| EchoGuards.EchoGuard.ShouldSuppress | crates/bridge-clipboard/src/guard.rs:34-36 | Suppression is membership in the last entries of the log |
| EchoGuards.EchoGuard.Record | crates/bridge-clipboard/src/guard.rs:47-64 | Fresh means unknown hash and newer sequence; anything else changes nothing |
| EchoGuards.EchoGuard.Push | crates/bridge-clipboard/src/guard.rs:78-91 | Pushing logs a new hash, evicting the oldest at capacity, and keeps the refinement |
| ClipboardEngine.MemoryBackend.Set | crates/bridge-clipboard/src/backend/memory.rs:50-62 | Content is replaced and one notification is queued; a full channel loses its oldest and is marked as lagged |
| ClipboardEngine.ClipboardSyncEngine.HandleLocalChange | crates/bridge-clipboard/src/engine.rs:106-166 | Policy, then suppression, then a numbered entry, with the guard recorded before the broadcast |
| ClipboardEngine.ClipboardSyncEngine.HandleIncomingFrame | crates/bridge-clipboard/src/engine.rs:172-277 | Own, corrupted, blocked and stale messages change nothing; others update guard and backend |
| ClipboardEngine.ClipboardSyncEngine.RunMonitor | crates/bridge-clipboard/src/engine.rs:281-294 | The monitor loop drains the queue through the local handler and ends for good on a lag |
| ClipboardRuns.MonitorNeverEchoes | crates/bridge-clipboard/src/engine.rs:106-294 | With the monitor as the only local caller, content applied from a peer is never re-broadcast through its own notification, whatever is copied and received in whatever order |
| ClipboardRuns.NoEcho | crates/bridge-clipboard/src/engine.rs:106-294 | The same with direct local calls, up to 128 of them while the notification waits |
| ClipboardBound.BoundIsTight | crates/bridge-clipboard/src/guard.rs:78-91 | With 129 calls, 63 copies ahead, 63 entries behind and one clear, the notification is broadcast: 128 is the largest bound |
| ClipboardRuns.EchoExactlyBeyondWindow | crates/bridge-clipboard/src/guard.rs:78-91 | An admissible notification is re-broadcast if and only if at least 256 hashes have entered the guard since its own did last |
| ClipboardRuns.FloodCausesEcho | crates/bridge-clipboard/src/guard.rs:78-91 | 256 direct calls with new contents do cause the echo |
| ClipboardRuns.AppliedInOrder | crates/bridge-clipboard/src/guard.rs:47-64 | Over any replayed, reordered or duplicated messages, what is applied from one origin has strictly increasing sequence numbers and nothing is applied twice |
| ClipboardRuns.AppliedOrUntouched | crates/bridge-clipboard/src/engine.rs:178-276 | A message is either applied, and then its replay is refused, or leaves guard and backend untouched |
| ClipboardRuns.AppliedEntries | crates/bridge-clipboard/src/engine.rs:179-203 | In every run each applied entry came from another node, has hash and size that match its content and is admitted by the policy |
| ClipboardRuns.IncomingEntryExactly | crates/bridge-clipboard/src/engine.rs:177-253 | In every reachable state the first condition an entry fails decides its outcome and nothing changes; an entry that is foreign, intact, admitted, outside the last 256 hashes and newer than all that took effect from its origin is applied and becomes the content |
| ClipboardRuns.IncomingClearExactly | crates/bridge-clipboard/src/engine.rs:254-276 | A remote clear empties the clipboard if and only if it is foreign and new in the same sense |
| ClipboardRuns.BroadcastExactlyIfNew | crates/bridge-clipboard/src/engine.rs:106-165 | In every reachable state a local change is broadcast, under the next number, if and only if the policy admits it and its hash is not among the last 256 |
| ClipboardRuns.MonitorBroadcastsExactlyIfNew | crates/bridge-clipboard/src/engine.rs:281-294 | The monitor does the same with the oldest notification, unless it has lagged; then it ends |
| ClipboardRuns.MonitorDrainsQueue | crates/bridge-clipboard/src/engine.rs:281-294 | The monitor loop takes one turn for each waiting notification and then blocks; after a lag it ends without taking any |
| ClipboardRuns.SentEntries | crates/bridge-clipboard/src/engine.rs:133-155 | Broadcast entries are the engine's own, intact, admitted by policy and numbered consecutively modulo 2^64 |
| ClipboardRuns.BroadcastsAtMostCopies | crates/bridge-clipboard/src/engine.rs:281-294 | With the monitor as the only local caller, in every run an engine has broadcast at most as often as applications have copied, whatever it received |
| ClipboardRuns.CopyReachesPeerOnce | crates/bridge-clipboard/tests/clipboard_test.rs:129-210 | What one engine broadcasts a peer that has not seen it applies; the peer's next monitor turn and a repeat of the copy broadcast nothing |
| LocalSequence.IssuedNumbersDistinct | crates/bridge-clipboard/src/engine.rs:118-141 | Under any interleaving of check, fetch-add and record, the numbers handed out are distinct if and only if there are at most 2^64 of them |
| LocalSequence.CallsNeverShareANumber | crates/bridge-clipboard/src/engine.rs:133-141 | Two calls that reach the broadcast carry different numbers |
| LocalSequence.InterleaveKeepsHistory | crates/bridge-clipboard/src/engine.rs:118-141 | Along every interleaving the guard shows the last 256 hashes that entered it, each entered by a finished call or applied from a peer |
| LocalSequence.AppliedExactlyIfNew | crates/bridge-clipboard/src/engine.rs:205-227 | Under any interleaving an entry from a peer enters the guard if and only if its hash is not among the last 256, and leaves all local calls as they are |
| LocalSequence.CheckPassesExactlyBeyondWindow | crates/bridge-clipboard/src/engine.rs:118-131 | A call passes its check if and only if at least 256 hashes have entered since every call of the same content recorded and since every time that content was applied from a peer |
| LocalSequence.SentTwiceOnlyIfOverlappingOrEvicted | crates/bridge-clipboard/src/engine.rs:118-141 | One content is sent by two calls only if the later one checked before the earlier one had recorded, or 256 hashes lie between |
| LocalSequence.SameContentMaySendTwice | crates/bridge-clipboard/src/engine.rs:121-141 | The first of these does happen: two copies of one content that check before either has recorded are both sent |
| LocalSequence.NothingLostExactlyIfSentInOrder | crates/bridge-clipboard/src/guard.rs:47-64 | Of broadcasts with new contents a peer applies every one if and only if their numbers rise in the order they were sent |
| LocalSequence.InOrderExactlyIfInTurn | crates/bridge-clipboard/src/engine.rs:133-155 | In every run with fewer than 2^64 numbers, each broadcast is made by the call with the smallest number in flight if and only if numbers have gone out in rising order and those in flight can follow |
| LocalSequence.SerialCallsGoOutInOrder | crates/bridge-clipboard/src/engine.rs:133-155 | So numbers rise if no two calls are ever between their number and their broadcast at once |
| LocalSequence.LaterNumberMayGoFirst | crates/bridge-clipboard/src/engine.rs:143-155 | Without that, a later number can go out first |
| NotificationGuards.PostConsistentExactly | crates/bridge-notifications/src/guard.rs:62-79 | A post keeps ring, states and hashes in agreement if and only if the key is not dismissed or is the one a full ring evicts |
| NotificationGuards.PostingDismissedDuplicatesRing | crates/bridge-notifications/src/guard.rs:62-90 | Driven without the engine, post, dismiss, post puts a key into the ring twice |
| NotificationGuards.NotificationGuard.Post | crates/bridge-notifications/src/guard.rs:62-79 | Recording a post evicts the oldest key of a full ring from all three structures and tracks the new one |
| NotificationGuards.NotificationGuard.Dismiss | crates/bridge-notifications/src/guard.rs:82-90 | A tracked key becomes dismissed and its hash is forgotten |
| NotificationGuards.NotificationGuard.ClearAll | crates/bridge-notifications/src/guard.rs:94-102 | Exactly the keys of the origin become dismissed and lose their hashes |
| NotificationEngine.NotificationSyncEngine.HandleMessage | crates/bridge-notifications/src/engine.rs:119-249 | All four messages change guard and mirror, and raise events, as the handler functions say |
| NotificationEngine.LimitsKept | crates/bridge-notifications/src/types.rs:148-150 | Title and text become the longest prefixes of whole characters within 256 and 4096 bytes, and the rest is kept |
| NotificationEngine.NotificationSyncEngine.ActiveNotifications | crates/bridge-notifications/src/engine.rs:335-349 | The snapshot is the bucket's active entries in order |
| NotificationRuns.ReachableStates | crates/bridge-notifications/src/engine.rs:119-249 | In every reachable state the ring has no duplicates and at most 256 keys, its keys are those of the state map, the cached hashes are those of the active keys, buckets hold at most 256 entries with unique ids, dismissed in the guard means dismissed in the mirror, and with active posts on the wire guard and mirror agree on every state |
| NotificationRuns.DeliveryAgreesExactlyIfActive | crates/bridge-notifications/src/engine.rs:163-174 | A delivered post leaves guard and mirror agreeing about it if and only if it was active on the wire |
| NotificationRuns.SnapshotHidesDismissed | crates/bridge-notifications/src/engine.rs:335-349 | The snapshot shows no id twice and none the guard holds as dismissed |
| NotificationRuns.SurvivesInsertions | crates/bridge-notifications/src/guard.rs:66-75 | A key at index i of a ring of length n is still tracked, at a known place, after up to 256 - n + i insertions from any origins |
| NotificationRuns.LeavesAfterLifetime | crates/bridge-notifications/src/guard.rs:66-75 | It leaves on exactly the next insertion |
| NotificationRuns.DismissedStaysSilent | crates/bridge-notifications/src/engine.rs:141-163 | After a dismissal no delivery event for the id occurs while it is tracked |
| NotificationRuns.DismissalTakesHold | crates/bridge-notifications/src/engine.rs:177-246 | Dismiss, dismiss action and clear-all dismiss every tracked id they name, and clear-all no other origin's |
| NotificationRuns.DeliveredOnce | crates/bridge-notifications/src/engine.rs:123-175 | After a delivered post, any post of that id with the same content hash changes nothing and is not delivered; new content for the id is delivered and replaces it |
| NotificationHistory.DismissedExactlyIfNamed | crates/bridge-notifications/src/engine.rs:119-249 | In every run each tracked id was delivered, and is held as dismissed if and only if a dismissal, a dismiss action or a clear-all has named it since its last delivery |
| NotificationHistory.MirrorHoldsLastDelivery | crates/bridge-notifications/src/engine.rs:166-245 | Each mirrored entry is the one last delivered under its id, marked dismissed if and only if it has been named since or was so on the wire |
| NotificationHistory.DeliveredExactlyIfUnknown | crates/bridge-notifications/src/engine.rs:123-176 | A post is announced and put at the end of the mirror if and only if the policy admits it and its id is not tracked, or is tracked with other content and not dismissed since; otherwise nothing changes |
| NotificationHistory.MirrorIsLast256 | crates/bridge-notifications/src/engine.rs:166-174 | The mirror of an origin is the last 256 of everything delivered from it, one entry for each id in the order of the last deliveries |
| NotificationHistory.OtherActionsTouchNothing | crates/bridge-notifications/src/engine.rs:228-238 | Open, reply and custom actions leave guard and mirror as they were |
| NotificationHistory.EverythingAnnounced | crates/bridge-notifications/src/engine.rs:191-246 | In every run each dismissal, clear-all and action is announced once, in order, with the key or origin it names |
| Utf8.ValidExactlyIfEncoded | crates/bridge-notifications/src/types.rs:164-177 | The well-formed byte strings are exactly the encodings of sequences of Unicode scalar values (sections 3 and 4 of RFC 3629) |
| Utf8.BoundaryIsWholeScalars | crates/bridge-notifications/src/types.rs:169-173 | The one-byte boundary test holds if and only if the prefix is well-formed UTF-8 |
| Utf8.TruncatedIsLongest | crates/bridge-notifications/src/types.rs:165-175 | Truncation gives the longest prefix of whole scalars within the limit, at most three bytes below it |
| Utf8.TruncatingTwice | crates/bridge-notifications/src/types.rs:165-175 | Truncating twice is truncating once |
| Utf8.TruncateStrBytes | crates/bridge-notifications/src/types.rs:165-175 | The loop terminates and computes that prefix |
| Utf8.SanitizeDeviceName | crates/bridge-discovery/src/beacon.rs:113-120 | The device-name loop computes the same function at 64 bytes |
| PeerDirectories.MergedAddressesContents | crates/bridge-discovery/src/peer.rs:75-79 | Merging keeps known addresses in place, adds exactly the new ones and creates no duplicate |
| PeerDirectories.PeerDirectory.InsertOrUpdate | crates/bridge-discovery/src/peer.rs:66-88 | The stored peer and whether it is new |
| PeerDirectories.PeerDirectory.PruneExpired | crates/bridge-discovery/src/peer.rs:142-164 | Exactly the expired peers are removed, and each is reported once |
| PeerDirectories.SurvivesPruneExactlyWithinAge | crates/bridge-discovery/src/peer.rs:66-164 | A peer survives pruning if and only if its last announcement is no older than the limit, with its latest data and every address announced |
| Discovery.Worker.OnAnnouncement | crates/bridge-discovery/src/udp.rs:314-345 | A lone worker's log stays in step: replaying it gives the directory's keys |
| Discovery.Worker.OnGoodbye | crates/bridge-discovery/src/udp.rs:347-352 | The same for a goodbye |
| Discovery.Worker.OnResolved | crates/bridge-discovery/src/service.rs:336-363 | The same for a resolved service, and the name is remembered |
| Discovery.Worker.OnRemoved | crates/bridge-discovery/src/service.rs:369-381 | The same for a removed service, found by name |
| Discovery.Worker.OnPrune | crates/bridge-discovery/src/udp.rs:256-262 | The same for pruning, with one expiry event per peer removed |
| Discovery.EventsBalanceDirectory | crates/bridge-discovery/src/udp.rs:247-352 | With two workers, in every interleaving and for every peer, discoveries minus losses and expiries, counting those not yet sent, is 1 if the peer is in the directory and 0 if not |
| Discovery.ReportsAreExactlyDue | crates/bridge-discovery/src/udp.rs:256-352 | In every interleaving the events sent and pending are exactly those the inputs call for: a discovery or an update for an announcement, a loss for the departure of a known peer, an expiry for each peer pruned |
| Discovery.LogStaysInStepExactlyWhileApart | crates/bridge-discovery/src/udp.rs:247-352 | With two workers, at every point of a run every order of sending what is pending leaves the log right about a peer, if and only if the workers never both had an unsent discovery, loss or expiry of it |
| Discovery.ContentionHarmlessExactlyIfUnanimous | crates/bridge-discovery/src/service.rs:336-381 | Wherever both have one, every order ends right if and only if the two say the same; otherwise one of the two orders ends wrong |
| Discovery.NameExactlyIfResolvedLast | crates/bridge-discovery/src/service.rs:336-381 | In every run a service name stands for a node if and only if the last thing heard about it resolved it to that node, so a removal is heeded once |
| Discovery.ContendersMayAgree | crates/bridge-discovery/src/udp.rs:314-352 | They can say the same: found, lost and found again, with both discoveries unsent, is bound to end right |
| Discovery.TwoWorkersMayMisorder | crates/bridge-discovery/src/service.rs:355-378 | Such a run: the log ends with a discovery of a peer that is gone |
| Framing.FramedStream.RecvFrame | crates/bridge-transport/src/framed.rs:26-59 | What one receive returns and what it leaves in the stream |
| Framing.FramedStream.SendFrame | crates/bridge-transport/src/framed.rs:62-73 | Exactly the encoded frame is appended, or nothing |
| Framing.WireLayout | crates/bridge-protocol/src/codec.rs:6-28 | Magic, 32-bit big-endian payload length, payload |
| Framing.EncodedExactlyIfFits | crates/bridge-protocol/src/codec.rs:6-28 | A frame whose body can be serialised is encoded if and only if that takes at most 16 MiB, and decodes back |
| Framing.StreamRoundTrip | crates/bridge-transport/src/framed.rs:26-73 | Any list of sent frames is received as that list and then the end of the stream |
| Framing.TruncatedStream | crates/bridge-transport/src/framed.rs:26-59 | Any truncation yields exactly the frames that arrived whole, then the end of the stream if less than a header is left, an error otherwise |
| Framing.RecvTakesExactly | crates/bridge-transport/src/framed.rs:26-57 | A receive takes everything off a stream that ends inside a frame, eight bytes on a bad magic or an oversized length, and otherwise the whole frame, even one that does not decode |
| Framing.DecodeAgreesWithRecv | crates/bridge-protocol/src/codec.rs:31-61 | The slice decoder and the stream receiver agree on frame and error, except below eight bytes |
| ShortAuth.SasInputSymmetricExactly | crates/bridge-identity/src/pairing.rs:26-46 | Both sides hash the same bytes if and only if their identities differ or their nonces coincide |
| ShortAuth.BothSidesAgree | crates/bridge-identity/src/pairing.rs:327-346 | Distinct nodes with any nonces derive the same SAS and the same commitment |
| ShortAuth.AtMostIsLexicographic | crates/bridge-identity/src/pairing.rs:36-46 | The order of node ids is the lexicographic order of their bytes |
| ShortAuth.ShownDigits | crates/bridge-identity/src/pairing.rs:26-65 | Whichever side derives it, the display reads as the first eight bytes of the SHA-256 digest, as one number, modulo 1,000,000, and the fingerprint is the first four; the digest is of the tag, the two ids and the two nonces, the lower id's first |
| ShortAuth.SameDigitsExactlyIfCongruent | crates/bridge-identity/src/pairing.rs:51-58 | Two ceremonies show the same six digits if and only if those numbers are congruent modulo 1,000,000 |
| ShortAuth.CommittedBytes | crates/bridge-identity/src/pairing.rs:327-346 | Both sides commit to the digest of the tag, the digits and the two nonces, the lower id's first |
| ShortAuth.PinRoundTrip | crates/bridge-identity/src/pairing.rs:56-58 | The seven-character display of a PIN reads back to it |
| ShortAuth.PinBack | crates/bridge-identity/src/pairing.rs:56-58 | Every string that reads as a PIN is the display of exactly that PIN |
| Pairing.RefusedForTrueReason | crates/bridge-identity/src/pairing.rs:149-324 | A hello or a confirmation is refused with an error that is true of it, and a confirmation exists exactly once there is a SAS |
| Pairing.SessionCommits | crates/bridge-identity/src/pairing.rs:327-346 | A side commits to the digits and the two nonces, that of the lexicographically lower id first, or to its own alone while it knows no other side |
| Pairing.HonestSidesFinalize | crates/bridge-identity/src/pairing.rs:207-346 | Two honest sides see the same SAS and each accepts the other's confirmation |
| Pairing.PairingSession.ReceiveHello | crates/bridge-identity/src/pairing.rs:207-247 | A hello with an inconsistent key changes nothing; any other sets peer, nonce and SAS |
| Pairing.PairingSession.Approve | crates/bridge-identity/src/pairing.rs:270-283 | There is a confirmation if and only if there is a SAS; its signature verifies for the commitment, and every session that holds this side as its remote with the same commitment accepts it |
| Pairing.PairingSession.Seal | crates/bridge-identity/src/pairing.rs:287-325 | The peer becomes trusted if and only if every check passes; otherwise nothing changes |
| PairingRuns.Disturbances | crates/bridge-session/src/session.rs:628-663 | The disturbances the results allow for do happen: frames outside the ceremony are sent, and losing the connection or hanging up takes a party out of it |
| PairingRuns.TrustNeedsBothHumans | crates/bridge-session/src/session.rs:369-547 | In every interleaving, with losses, hang-ups, pings and skipped frames, neither side stores the peer unless both humans confirmed, and then it stores the peer it talked to |
| PairingRuns.SameSasEverywhere | crates/bridge-session/src/session.rs:409-412 | Whoever is asked, confirmed, refused or stored the peer has a SAS, and whenever both sides have one it is the same |
| PairingRuns.ConsentLeadsToTrust | crates/bridge-session/src/session.rs:369-547 | A run at rest in which nobody refused and nothing was lost has both sides trusted, same SAS, each other's record stored |
| PairingRuns.ActionsApproachRest | crates/bridge-session/src/session.rs:628-663 | Apart from fresh unrelated frames, every effective action brings the run closer to rest |
| PairingRuns.CeremonyCompletes | crates/bridge-session/src/session.rs:369-547 | From any such point the ceremony can be carried through to trust on both sides |
| PairingRuns.DrivingIsARun | crates/bridge-session/src/session.rs:369-547 | A party driven frame by frame, as `execute_pairing` drives it, on either side, is in a run of the two parties, so all these results apply to it |
| PairingNetwork.StoredPeerConfirmed | crates/bridge-identity/src/pairing.rs:270-346 | With any number of parties and a network that delivers anything: whoever stored a party's key has its own human's consent, and a party with that key has a human who confirmed the same commitment, was shown the same number and took part with the same two nonces, unless SHA-256 collides on them |
| PairingNetwork.MetThisPartyExactlyIfSameSasInput | crates/bridge-identity/src/pairing.rs:26-46 | The commitment contains no node id: that party had met this one if and only if both derived their SAS from the same bytes |
| PairingNetwork.SameDigitsLeaveIdentityOpen | crates/bridge-identity/src/pairing.rs:327-346 | If two different inputs give the same six digits there is a run in which the confirming party had met another node; nothing else is assumed but that signing and verifying fit together |
| PairingNetwork.SameDigitsHappen | crates/bridge-identity/src/pairing.rs:48-60 | Two such inputs can exist for a hash that has no collision at all, since only the six digits have to agree |
| Sessions.EffectsNeedTrust | crates/bridge-session/src/session.rs:550-625 | However the sessions of a node are opened, fed and revoked, in each of them every clipboard or file effect follows a trust-establishing event with no pairing attempt and no disconnect in between, and the state is trusted exactly while that is so |
| Sessions.LaterTrustNeedsPairing | crates/bridge-identity/src/trust.rs:139-167 | With one store shared by all sessions, a node not trusted before is trusted later only if a ceremony in some session saved that node with that key and it was not revoked since |
| Sessions.SessionHandlesExactly | crates/bridge-session/src/session.rs:550-625 | What an open session hands to the clipboard engine are, in order, exactly the payloads on channel 1 that arrive while trust holds, if it has an engine; likewise files, channel 2 and the receive directory; every ping is answered, and the last pairing attempt or disconnect decides the state |
| Sessions.OpensExactly | crates/bridge-identity/src/trust.rs:232-262 | A session opens unless the store holds the node with another key or as revoked, and opens trusted if and only if it holds it with this key as trusted |
| Sessions.ConnectOpensExactly | crates/bridge-session/src/session.rs:140-210 | The same at a node with any history, with everything else unchanged |
| Sessions.OtherKeyStaysOut | crates/bridge-identity/src/trust.rs:238-251 | A node presenting another key than the stored one opens no session until a ceremony saves it again |
| Sessions.RevokedStaysOut | crates/bridge-identity/src/trust.rs:232-288 | A revoked node opens no session until a ceremony saves it again |
| Sessions.RevokedSessionGoesOn | tools/bridge-cli/src/client.rs:465-475 | Revoking closes no open session: a trusted one that is not paired anew goes on handling clipboard and file frames exactly until a pairing attempt or a disconnect reaches it |
| Sessions.PairingTrustsTheNamedNode | crates/bridge-session/src/session.rs:451-463 | After a successful ceremony the session's own remote node is trusted by the store if and only if it was before or the hello named it; the session is trusted in either case |
| Sessions.SessionMayTrustAnother | crates/bridge-session/src/session.rs:374-463 | They can differ: over the frames of another node the ceremony succeeds, the session is trusted, that node is stored and the session's own remote is not |
| Sessions.PairedSessionHasConsent | crates/bridge-session/src/session.rs:451-463 | Whatever happened on the wire, a session of either side trusted by pairing had both humans' consent and trusts exactly the node it paired with |
| Sessions.ActiveSession.FinishHandshake | crates/bridge-session/src/session.rs:140-210 | The trust store decides: trusted, untrusted, or no session for a mismatched or revoked key |
| Sessions.Greet | crates/bridge-session/src/session.rs:374-432 | The first half: the frames read drive the party to its human's answer, and what is sent is what the party sends |
| Sessions.Conclude | crates/bridge-session/src/session.rs:434-463 | The second half: the frames read drive the party from there to trust or to an error |
| Sessions.ActiveSession.ExecutePairing | crates/bridge-session/src/session.rs:369-547 | Over any frames, what it sends is what the party driven by the frames it read sends; the party's end decides session and store: success saves and trusts, a local refusal falls back to untrusted, anything else leaves the session blocked in pairing |
| CeremonyOutcome.OutcomeExactly | crates/bridge-session/src/session.rs:369-547 | Over every sequence of frames, pairing ends in trust if and only if the first frame that matters is the hello expected with a valid key that is its node id, the human confirms, and the next that matters is a confirmation by that node with a 64-byte signature for this side's commitment; in a refusal if and only if the human declines after such a hello |
| Sessions.ActiveSession.ProcessNextFrame | crates/bridge-session/src/session.rs:550-625 | Effects only in the trusted state, pongs for pings, termination on disconnect |
| Sessions.RecvDataFrame | crates/bridge-session/src/session.rs:628-663 | Reads up to the first frame on the pairing channel, a disconnect or the end; pings passed on the way are answered in order, and the waiting party is unmoved |

## Left out

- The Win32 clipboard backend, sockets, the mDNS daemon, logging, the command line and real clocks.
- Ed25519, SHA-256, Blake3 and Postcard internals; collision freedom of hashes is nowhere assumed.
- Distinctness of content hashes: several fields are concatenated without separators, so it is not claimed.
- The blocklists and size policies of clipboard and notifications: each is one predicate here.
- Icons in notifications and their size limit, and the outbound `build_*` helpers of the notification engine: easy members only.
- The SQLite form of the trust store; it is a map from node id to record.
- `TrustStore::delete_peer`, which nothing in the program calls; it would let a revoked node open an untrusted session.
- The challenge-response handshake before the trust decision.
- The dispatch in `handle_connection` that consumes a pairing frame before `execute_pairing`; both parties enter `execute_pairing` directly.
- The short file-offer handler of the session crate, which only answers an offer.
- Event channels that overflow: lagging listeners of discovery and clipboard events are not modelled.
- Two concurrent connections receiving the same file name.
- Finalizing a memory receiver as a file or a disk receiver as memory: the two targets are separate classes here, so the wrong-target errors cannot arise.
- TransferProtocol.RunSendFile: assumes the file still has the size in its manifest; a file that changes while being sent is covered only by Sender.FileSender.NextChunk.
- Receiver.MemoryReceiver.ReceiveChunk: assumes a manifest built by `FileManifest::new`; with an inconsistent one the program's slice copy would panic.
- Sessions.ActiveSession.ExecutePairing: sending never fails here; a failed send in the program is an error return like the others.
- Discovery.EventsBalanceDirectory: beacons and queries, which do not touch the directory, and the filter for the node's own announcements are not steps.
