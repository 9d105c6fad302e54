/** The chunk sink, on disk and in memory (crates/bridge-transfer/src/receiver.rs). */
module Receiver {
  import opened Common
  import opened Chunks

  // ---------- files ----------

  /** `seek` to `offset` and `write_all`: a gap is filled with zeros, the tail is kept. */
  function WriteAt(file: Bytes, offset: nat, data: Bytes): Bytes {
    if data == [] then file
    else
      var padded := if |file| < offset then file + seq(offset - |file|, _ => 0) else file;
      padded[..offset] + data + (if offset + |data| < |padded| then padded[offset + |data|..] else [])
  }

  function PartPath(m: Manifest): string {
    m.filename + ".part"
  }

  /** Contents after opening with `create(true)`, `truncate(false)`. */
  function Existing(files: map<string, Bytes>, path: string): Bytes {
    if path in files then files[path] else []
  }

  function Renamed(files: map<string, Bytes>, from: string, to: string): map<string, Bytes>
    requires from in files
  {
    (files - {from})[to := files[from]]
  }

  // ---------- receiver logic on values ----------

  /** How many leading chunks `to_dir` keeps from a partial file. */
  function ResumePoint(m: Manifest, existing: Bytes): nat {
    if |existing| > 0 && m.totalChunks > 0
    then Min((|existing| / CHUNK_SIZE) % U32_COUNT, m.totalChunks)
    else 0
  }

  lemma ResumePointFits(m: Manifest, existing: Bytes)
    ensures ResumePoint(m, existing) * CHUNK_SIZE <= |existing|
  {
  }

  /** What `to_dir` leaves of a partial file. */
  function Resumed(m: Manifest, existing: Bytes): Bytes {
    ResumePointFits(m, existing);
    if |existing| > 0 && m.totalChunks > 0
    then existing[..ResumePoint(m, existing) * CHUNK_SIZE]
    else existing
  }

  /** The checks of `receive_chunk`, in the order the code makes them. */
  function CheckChunk(hash: Bytes -> Digest, m: Manifest, c: FileChunk): Option<TransferError> {
    if c.fileId != m.fileId then Some(Protocol)
    else if c.index >= m.totalChunks then Some(ChunkOutOfBounds)
    else if !VerifyHash(hash, c) then Some(ChunkHashMismatch)
    else if |c.data| != ExpectedChunkSize(m, c.index).value then Some(InvalidChunkSize)
    else if c.offset != c.index * CHUNK_SIZE then Some(Protocol)
    else None
  }

  /** `is_complete`, which counts. */
  predicate IsComplete(m: Manifest, received: set<nat>) {
    m.totalChunks == 0 || |received| % U32_COUNT == m.totalChunks
  }

  /** Counting and scanning agree: the set is complete exactly when it is all of the indices. */
  lemma CompleteIsEverything(m: Manifest, received: set<nat>)
    requires received <= Below(m.totalChunks)
    ensures IsComplete(m, received) <==> received == Below(m.totalChunks)
  {
    FullSubsetIsBelow(received, m.totalChunks);
  }

  /** An honest chunk passes every check. */
  lemma HonestChunkAccepted(hash: Bytes -> Digest, m: Manifest, source: Bytes, index: nat)
    requires WellFormed(m) && |source| == m.totalSize && index < m.totalChunks
    ensures CheckChunk(hash, m, ChunkAt(hash, m, source, index)) == None
    ensures |ChunkBytes(m, source, index)| > 0
  {
    ChunkGeometry(m, index);
  }

  /** Exactly the chunks that fill their own slot of the file are accepted. */
  lemma AcceptedExactlyIfInPlace(hash: Bytes -> Digest, m: Manifest, c: FileChunk)
    requires WellFormed(m)
    ensures CheckChunk(hash, m, c).None? <==>
            && c.fileId == m.fileId && hash(c.data) == c.hash
            && c.index < m.totalChunks
            && c.offset == ChunkStart(m, c.index) && c.offset + |c.data| == ChunkStart(m, c.index + 1)
  {
    if c.index < m.totalChunks {
      ChunkGeometry(m, c.index);
    }
  }

  /** A chunk is refused for a reason that is true of it. */
  lemma RefusedForTrueReason(hash: Bytes -> Digest, m: Manifest, c: FileChunk)
    requires CheckChunk(hash, m, c).Some?
    ensures match CheckChunk(hash, m, c).value
            case Protocol => c.fileId != m.fileId || c.offset != c.index * 65536
            case ChunkOutOfBounds => c.index >= m.totalChunks
            case ChunkHashMismatch => c.hash != hash(c.data)
            case InvalidChunkSize => ExpectedChunkSize(m, c.index) != Ok(|c.data|)
            case _ => false
  {
  }

  /** The scan of `next_expected_chunk`. */
  method ScanNextExpected(m: Manifest, received: set<nat>) returns (next: nat)
    requires received <= Below(m.totalChunks)
    ensures next <= m.totalChunks
    ensures Below(next) <= received
    ensures next < m.totalChunks ==> next !in received
    ensures next == m.totalChunks <==> IsComplete(m, received)
  {
    var expected: nat := 0;
    ghost var rest := received;
    while expected in received
      invariant expected <= m.totalChunks && Below(expected) <= received
      invariant rest == received - Below(expected)
      decreases rest
    {
      rest := rest - {expected};
      expected := expected + 1;
    }
    next := Min(expected, m.totalChunks);
    CompleteIsEverything(m, received);
  }

  // ---------- disk target ----------

  /** A directory: file contents by path. */
  class Directory {
    var files: map<string, Bytes>

    constructor ()
      ensures files == map[]
    {
      files := map[];
    }
  }

  class FileReceiver {
    const manifest: Manifest
    const hash: Bytes -> Digest
    const dir: Directory
    /** The path the open file currently has; renaming moves it. */
    var openPath: string
    var received: set<nat>

    ghost predicate Valid()
      reads this, dir
    {
      openPath in dir.files && received <= Below(manifest.totalChunks)
    }

    /** `to_dir`: open or create the partial file and cut it back to whole chunks. */
    constructor (dir: Directory, manifest: Manifest, hash: Bytes -> Digest)
      modifies dir
      ensures Valid()
      ensures this.dir == dir && this.manifest == manifest && this.hash == hash
      ensures openPath == PartPath(manifest)
      ensures var part := PartPath(manifest);
              dir.files == old(dir.files)[part := Resumed(manifest, Existing(old(dir.files), part))]
      ensures received == Below(ResumePoint(manifest, Existing(old(dir.files), PartPath(manifest))))
    {
      this.dir := dir;
      this.manifest := manifest;
      this.hash := hash;
      this.openPath := PartPath(manifest);
      this.received := {};
      new;
      var existing := Existing(dir.files, openPath);
      dir.files := dir.files[openPath := existing];
      if |existing| > 0 && manifest.totalChunks > 0 {
        var full := (|existing| / CHUNK_SIZE) % U32_COUNT;
        var valid := Min(full, manifest.totalChunks);
        ResumePointFits(manifest, existing);
        dir.files := dir.files[openPath := existing[..valid * CHUNK_SIZE]];
        for i := 0 to valid
          invariant received == Below(i)
          modifies this`received
        {
          received := received + {i};
        }
      }
    }

    method NextExpectedChunk() returns (next: nat)
      requires Valid()
      ensures next <= manifest.totalChunks && Below(next) <= received
      ensures next < manifest.totalChunks ==> next !in received
      ensures next == manifest.totalChunks <==> IsComplete(manifest, received)
    {
      next := ScanNextExpected(manifest, received);
    }

    method ReceiveChunk(c: FileChunk) returns (r: Result<(), TransferError>)
      requires Valid()
      modifies this`received, dir
      ensures Valid()
      ensures match CheckChunk(hash, manifest, c)
              case Some(e) => r == Err(e) && unchanged(this) && unchanged(dir)
              case None =>
                && r == Ok(())
                && received == old(received) + {c.index}
                && dir.files == old(dir.files)[openPath := WriteAt(old(dir.files[openPath]), c.offset, c.data)]
    {
      if c.fileId != manifest.fileId {
        return Err(Protocol);
      }
      if c.index >= manifest.totalChunks {
        return Err(ChunkOutOfBounds);
      }
      if hash(c.data) != c.hash {
        return Err(ChunkHashMismatch);
      }
      var expectedSize := ExpectedChunkSize(manifest, c.index);
      if |c.data| != expectedSize.value {
        return Err(InvalidChunkSize);
      }
      if c.offset != c.index * CHUNK_SIZE {
        return Err(Protocol);
      }
      dir.files := dir.files[openPath := WriteAt(dir.files[openPath], c.offset, c.data)];
      received := received + {c.index};
      return Ok(());
    }

    /** The read loop of `finalize_file`. Each `read` may return any non-empty block up to the buffer
        size; the streaming hasher's digest depends only on the bytes fed to it. */
    method HashOpenFile() returns (digest: Digest)
      requires Valid()
      ensures digest == hash(dir.files[openPath])
    {
      var file := dir.files[openPath];
      var fed: Bytes := [];
      var pos := 0;
      while pos < |file|
        invariant 0 <= pos <= |file| && fed == file[..pos]
      {
        var block := Min(CHUNK_SIZE, |file| - pos);
        var n: nat :| 1 <= n <= block;
        fed := fed + file[pos..pos + n];
        pos := pos + n;
      }
      assert fed == file;
      digest := hash(fed);
    }

    method FinalizeFile() returns (r: Result<string, TransferError>)
      requires Valid()
      modifies this`openPath, dir
      ensures Valid()
      ensures !IsComplete(manifest, received) ==> r == Err(Protocol)
      ensures IsComplete(manifest, received) && hash(old(dir.files[openPath])) != manifest.rootHash ==>
                r == Err(RootHashMismatch)
      ensures IsComplete(manifest, received) && hash(old(dir.files[openPath])) == manifest.rootHash ==>
                r == if PartPath(manifest) in old(dir.files) then Ok(manifest.filename) else Err(NotFound)
      ensures r.Err? ==> unchanged(this) && unchanged(dir)
      ensures r.Ok? ==>
                && openPath == (if old(openPath) == PartPath(manifest) then manifest.filename else old(openPath))
                && dir.files == Renamed(old(dir.files), PartPath(manifest), manifest.filename)
    {
      if !IsComplete(manifest, received) {
        return Err(Protocol);
      }
      var computed := HashOpenFile();
      if computed != manifest.rootHash {
        return Err(RootHashMismatch);
      }
      var part := PartPath(manifest);
      if part !in dir.files {
        return Err(NotFound);
      }
      assert |part| != |manifest.filename|;
      dir.files := Renamed(dir.files, part, manifest.filename);
      openPath := if openPath == part then manifest.filename else openPath;
      return Ok(manifest.filename);
    }
  }

  // ---------- memory target ----------

  /** The state of an in-memory receiver, as a value. */
  datatype MemoryState = MemoryState(buffer: Bytes, received: set<nat>)

  function MemoryInit(m: Manifest): MemoryState {
    MemoryState(seq(m.totalSize, _ => 0), {})
  }

  function MemoryReceive(hash: Bytes -> Digest, m: Manifest, s: MemoryState, c: FileChunk): MemoryState {
    if CheckChunk(hash, m, c).Some? then s
    else MemoryState(WriteAt(s.buffer, c.offset, c.data), s.received + {c.index})
  }

  function MemoryFeed(hash: Bytes -> Digest, m: Manifest, chunks: seq<FileChunk>): MemoryState {
    if chunks == [] then MemoryInit(m)
    else MemoryReceive(hash, m, MemoryFeed(hash, m, chunks[..|chunks| - 1]), chunks[|chunks| - 1])
  }

  lemma FeedSnoc(hash: Bytes -> Digest, m: Manifest, chunks: seq<FileChunk>, c: FileChunk)
    ensures MemoryFeed(hash, m, chunks + [c]) == MemoryReceive(hash, m, MemoryFeed(hash, m, chunks), c)
  {
    assert (chunks + [c])[..|chunks|] == chunks;
  }

  class MemoryReceiver {
    const manifest: Manifest
    const hash: Bytes -> Digest
    const buffer: array<byte>
    var received: set<nat>
    /** Every chunk offered so far, accepted or not. */
    ghost var fed: seq<FileChunk>

    ghost predicate Sized()
      reads this
    {
      && WellFormed(manifest)
      && buffer.Length == manifest.totalSize
      && received <= Below(manifest.totalChunks)
    }

    ghost predicate Valid()
      reads this, buffer
    {
      Sized() && State() == MemoryFeed(hash, manifest, fed)
    }

    ghost function State(): MemoryState
      reads this, buffer
    {
      MemoryState(buffer[..], received)
    }

    constructor (manifest: Manifest, hash: Bytes -> Digest)
      requires WellFormed(manifest)
      ensures Valid() && fresh(buffer)
      ensures this.manifest == manifest && this.hash == hash
      ensures State() == MemoryInit(manifest) && fed == []
    {
      this.manifest := manifest;
      this.hash := hash;
      this.buffer := new byte[manifest.totalSize](_ => 0);
      this.received := {};
      this.fed := [];
    }

    /** The checks and the slice copy. */
    method Take(c: FileChunk) returns (r: Result<(), TransferError>)
      requires Sized()
      modifies this`received, buffer
      ensures Sized()
      ensures r == match CheckChunk(hash, manifest, c) case Some(e) => Err(e) case None => Ok(())
      ensures State() == MemoryReceive(hash, manifest, old(State()), c)
    {
      var failed := CheckChunk(hash, manifest, c);
      if failed.Some? {
        return Err(failed.value);
      }
      ChunkGeometry(manifest, c.index);
      ghost var before := buffer[..];
      forall i | 0 <= i < |c.data| {
        buffer[c.offset + i] := c.data[i];
      }
      received := received + {c.index};
      assert buffer[..] == WriteAt(before, c.offset, c.data);
      return Ok(());
    }

    method ReceiveChunk(c: FileChunk) returns (r: Result<(), TransferError>)
      requires Valid()
      modifies this`received, this`fed, buffer
      ensures Valid() && fed == old(fed) + [c]
      ensures r == match CheckChunk(hash, manifest, c) case Some(e) => Err(e) case None => Ok(())
      ensures State() == MemoryReceive(hash, manifest, old(State()), c)
    {
      r := Take(c);
      FeedSnoc(hash, manifest, fed, c);
      fed := fed + [c];
    }

    /** Fed a source's chunks in any order, it returns exactly that source once every index was accepted. */
    method FinalizeMemory() returns (r: Result<Bytes, TransferError>)
      requires Valid()
      ensures forall source: Bytes ::
                && |source| == manifest.totalSize && CarriesSource(hash, manifest, source, fed)
                && hash(source) == manifest.rootHash ==>
                  r == if AcceptedIndices(hash, manifest, fed) == Below(manifest.totalChunks)
                       then Ok(source) else Err(Protocol)
      ensures !IsComplete(manifest, received) ==> r == Err(Protocol)
      ensures IsComplete(manifest, received) ==>
                r == if hash(buffer[..]) == manifest.rootHash then Ok(buffer[..]) else Err(RootHashMismatch)
    {
      forall source: Bytes | |source| == manifest.totalSize && CarriesSource(hash, manifest, source, fed)
        ensures IsComplete(manifest, received) <==> AcceptedIndices(hash, manifest, fed) == Below(manifest.totalChunks)
        ensures IsComplete(manifest, received) ==> buffer[..] == source
      {
        MemoryAssemblesSource(hash, manifest, source, fed);
      }
      if !IsComplete(manifest, received) {
        return Err(Protocol);
      }
      var computed := hash(buffer[..]);
      if computed != manifest.rootHash {
        return Err(RootHashMismatch);
      }
      return Ok(buffer[..]);
    }
  }

  // ---------- any order, any duplicates ----------

  /** Every accepted chunk of the script carries the source's bytes; rejected ones may carry anything. */
  ghost predicate CarriesSource(hash: Bytes -> Digest, m: Manifest, source: Bytes, chunks: seq<FileChunk>)
    requires |source| == m.totalSize
  {
    forall c :: c in chunks && CheckChunk(hash, m, c).None? ==> c.data == ChunkBytes(m, source, c.index)
  }

  /** Each received index has its slice of the source in place. */
  ghost predicate Holds(m: Manifest, source: Bytes, s: MemoryState)
    requires |source| == m.totalSize
  {
    && |s.buffer| == m.totalSize
    && s.received <= Below(m.totalChunks)
    && forall i, p :: i in s.received && ChunkStart(m, i) <= p < ChunkStart(m, i + 1) ==> s.buffer[p] == source[p]
  }

  /** A chunk, accepted or not, changes no byte outside its slot. */
  lemma ReceiveTouchesOnlyItsSlot(hash: Bytes -> Digest, m: Manifest, s: MemoryState, c: FileChunk, p: nat)
    requires WellFormed(m) && |s.buffer| == m.totalSize && p < m.totalSize
    requires !(ChunkStart(m, c.index) <= p < ChunkStart(m, c.index + 1))
    ensures var s' := MemoryReceive(hash, m, s, c);
            |s'.buffer| == m.totalSize && s'.buffer[p] == s.buffer[p]
  {
    AcceptedExactlyIfInPlace(hash, m, c);
    if CheckChunk(hash, m, c).None? {
      ChunkGeometry(m, c.index);
    }
  }

  /** An accepted chunk puts its bytes into its slot. */
  lemma ReceiveFillsItsSlot(hash: Bytes -> Digest, m: Manifest, s: MemoryState, c: FileChunk, p: nat)
    requires WellFormed(m) && |s.buffer| == m.totalSize && CheckChunk(hash, m, c).None?
    requires ChunkStart(m, c.index) <= p < ChunkStart(m, c.index + 1)
    ensures var s' := MemoryReceive(hash, m, s, c);
            |s'.buffer| == m.totalSize && |c.data| > p - c.offset >= 0 && s'.buffer[p] == c.data[p - c.offset]
  {
    ChunkGeometry(m, c.index);
  }

  lemma SlotsApart(m: Manifest, i: nat, j: nat, p: nat)
    requires i != j && ChunkStart(m, i) <= p < ChunkStart(m, i + 1)
    ensures !(ChunkStart(m, j) <= p < ChunkStart(m, j + 1))
  {
  }

  lemma ReceiveKeepsHolds(hash: Bytes -> Digest, m: Manifest, source: Bytes, s: MemoryState, c: FileChunk)
    requires WellFormed(m) && |source| == m.totalSize && Holds(m, source, s)
    requires CheckChunk(hash, m, c).None? ==> c.data == ChunkBytes(m, source, c.index)
    ensures Holds(m, source, MemoryReceive(hash, m, s, c))
  {
    if CheckChunk(hash, m, c).None? {
      var s' := MemoryReceive(hash, m, s, c);
      ChunkGeometry(m, c.index);
      assert |s'.buffer| == m.totalSize;
      forall i, p | i in s'.received && ChunkStart(m, i) <= p < ChunkStart(m, i + 1) ensures s'.buffer[p] == source[p] {
        if i == c.index {
          ReceiveFillsItsSlot(hash, m, s, c, p);
        } else {
          SlotsApart(m, i, c.index, p);
          ReceiveTouchesOnlyItsSlot(hash, m, s, c, p);
        }
      }
    }
  }

  /** The indices a script gets accepted. */
  ghost function AcceptedIndices(hash: Bytes -> Digest, m: Manifest, chunks: seq<FileChunk>): set<nat> {
    set c | c in chunks && CheckChunk(hash, m, c).None? :: c.index
  }

  lemma {:induction false} FeedHolds(hash: Bytes -> Digest, m: Manifest, source: Bytes, chunks: seq<FileChunk>)
    requires WellFormed(m) && |source| == m.totalSize && CarriesSource(hash, m, source, chunks)
    ensures Holds(m, source, MemoryFeed(hash, m, chunks))
    ensures MemoryFeed(hash, m, chunks).received == AcceptedIndices(hash, m, chunks)
  {
    if chunks == [] {
    } else {
      var init, last := chunks[..|chunks| - 1], chunks[|chunks| - 1];
      assert chunks == init + [last];
      FeedHolds(hash, m, source, init);
      ReceiveKeepsHolds(hash, m, source, MemoryFeed(hash, m, init), last);
    }
  }

  lemma EveryByteIsInAChunk(m: Manifest, p: nat) returns (i: nat)
    requires WellFormed(m) && p < m.totalSize
    ensures i < m.totalChunks && ChunkStart(m, i) <= p < ChunkStart(m, i + 1)
  {
    CountIsCeiling(m);
    i := p / CHUNK_SIZE;
    ChunkGeometry(m, i);
  }

  /** A receiver fed source chunks in any order, with any duplicates and any rejected chunks between
      them, is complete exactly when every index was accepted, and then holds exactly the source. */
  lemma MemoryAssemblesSource(hash: Bytes -> Digest, m: Manifest, source: Bytes, chunks: seq<FileChunk>)
    requires WellFormed(m) && |source| == m.totalSize && CarriesSource(hash, m, source, chunks)
    ensures var s := MemoryFeed(hash, m, chunks);
            && (IsComplete(m, s.received) <==> AcceptedIndices(hash, m, chunks) == Below(m.totalChunks))
            && (IsComplete(m, s.received) ==> s.buffer == source)
  {
    var s := MemoryFeed(hash, m, chunks);
    FeedHolds(hash, m, source, chunks);
    CompleteIsEverything(m, s.received);
    if IsComplete(m, s.received) {
      forall p | 0 <= p < m.totalSize ensures s.buffer[p] == source[p] {
        var i := EveryByteIsInAChunk(m, p);
      }
    }
  }
}
