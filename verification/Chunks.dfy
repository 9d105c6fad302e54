/**
 Manifests and chunk geometry (crates/bridge-transfer/src/message.rs).

 A file of `totalSize` bytes is cut into 64 KiB chunks; the number of chunks is stored in
 32 bits, so the count is taken modulo 2^32.
 */
module Chunks {
  import opened Common

  const CHUNK_SIZE: nat := 65536

  /** The largest file whose chunk count survives the cast to 32 bits. */
  const MAX_TOTAL_SIZE: nat := (U32_COUNT - 1) * CHUNK_SIZE

  datatype Manifest = Manifest(
    fileId: string, filename: string, totalSize: nat, totalChunks: u32, rootHash: Digest)

  datatype FileChunk = FileChunk(
    fileId: string, index: nat, offset: nat, data: Bytes, hash: Digest)

  datatype TransferError =
    | Protocol
    | ChunkOutOfBounds
    | ChunkHashMismatch
    | InvalidChunkSize
    | InvalidResumeOffset
    | RootHashMismatch
    | UnexpectedEof
    | NotFound

  function CalculateTotalChunks(totalSize: nat): u32 {
    if totalSize == 0 then 0
    else ((totalSize + CHUNK_SIZE - 1) / CHUNK_SIZE) % U32_COUNT
  }

  function NewManifest(fileId: string, filename: string, totalSize: nat, rootHash: Digest): Manifest {
    Manifest(fileId, filename, totalSize, CalculateTotalChunks(totalSize), rootHash)
  }

  /** A manifest as `FileManifest::new` builds it, for a file the format can describe. */
  predicate WellFormed(m: Manifest) {
    m.totalSize <= MAX_TOTAL_SIZE && m.totalChunks == CalculateTotalChunks(m.totalSize)
  }

  function ExpectedChunkSize(m: Manifest, index: nat): Result<nat, TransferError> {
    if index >= m.totalChunks then Err(ChunkOutOfBounds)
    else if index == m.totalChunks - 1 then
      var remainder := m.totalSize % CHUNK_SIZE;
      if remainder == 0 && m.totalSize > 0 then Ok(CHUNK_SIZE) else Ok(remainder)
    else Ok(CHUNK_SIZE)
  }

  function NewChunk(hash: Bytes -> Digest, fileId: string, index: nat, offset: nat, data: Bytes): FileChunk {
    FileChunk(fileId, index, offset, data, hash(data))
  }

  predicate VerifyHash(hash: Bytes -> Digest, c: FileChunk) {
    hash(c.data) == c.hash
  }

  /** Where chunk `index` starts; after the last chunk, the end of the file. */
  function ChunkStart(m: Manifest, index: nat): nat {
    Min(index * CHUNK_SIZE, m.totalSize)
  }

  /** The bytes of `source` that chunk `index` carries. */
  function ChunkBytes(m: Manifest, source: Bytes, index: nat): Bytes
    requires |source| == m.totalSize
  {
    source[ChunkStart(m, index)..ChunkStart(m, index + 1)]
  }

  /** The chunk an honest sender produces for `index`. */
  function ChunkAt(hash: Bytes -> Digest, m: Manifest, source: Bytes, index: nat): FileChunk
    requires |source| == m.totalSize
  {
    NewChunk(hash, m.fileId, index, index * CHUNK_SIZE, ChunkBytes(m, source, index))
  }

  /** The honest chunks with indices `from..upto`. */
  function ChunksBetween(hash: Bytes -> Digest, m: Manifest, source: Bytes, from: nat, upto: nat): seq<FileChunk>
    requires |source| == m.totalSize && from <= upto
  {
    seq(upto - from, i requires 0 <= i < upto - from => ChunkAt(hash, m, source, from + i))
  }

  function Payload(chunks: seq<FileChunk>): Bytes {
    if chunks == [] then [] else Payload(chunks[..|chunks| - 1]) + chunks[|chunks| - 1].data
  }

  /** Sum of the advertised sizes of the first `n` chunks. */
  function TotalExpected(m: Manifest, n: nat): nat
    requires n <= m.totalChunks
  {
    if n == 0 then 0 else TotalExpected(m, n - 1) + ExpectedChunkSize(m, n - 1).value
  }

  lemma CountIsCeiling(m: Manifest)
    requires WellFormed(m)
    ensures m.totalSize <= m.totalChunks * CHUNK_SIZE
    ensures m.totalChunks > 0 ==> (m.totalChunks - 1) * CHUNK_SIZE < m.totalSize
  {
  }

  /** Chunks tile the file: chunk `index` starts at its offset, has the advertised size, and ends
      where the next one starts; every boundary fits the source's 64-bit offsets. */
  lemma ChunkGeometry(m: Manifest, index: nat)
    requires WellFormed(m) && index < m.totalChunks
    ensures ChunkStart(m, index) == index * CHUNK_SIZE
    ensures ExpectedChunkSize(m, index) == Ok(ChunkStart(m, index + 1) - ChunkStart(m, index))
    ensures 0 < ExpectedChunkSize(m, index).value <= CHUNK_SIZE
    ensures ChunkStart(m, index + 1) <= m.totalSize
    ensures ChunkStart(m, index + 1) == m.totalSize <==> index + 1 == m.totalChunks
    ensures index * CHUNK_SIZE + CHUNK_SIZE < 0x1_0000_0000_0000_0000
  {
  }

  lemma {:induction false} TotalExpectedIsStart(m: Manifest, n: nat)
    requires WellFormed(m) && n <= m.totalChunks
    ensures TotalExpected(m, n) == ChunkStart(m, n)
  {
    if n == 0 {
    } else {
      TotalExpectedIsStart(m, n - 1);
      ChunkGeometry(m, n - 1);
    }
  }

  lemma {:induction false} TotalExpectedBound(m: Manifest, n: nat)
    requires n <= m.totalChunks
    ensures TotalExpected(m, n) <= n * CHUNK_SIZE
  {
    if n == 0 {
    } else {
      TotalExpectedBound(m, n - 1);
    }
  }

  /** The advertised chunk sizes add up to the file size exactly when the chunk count fits 32 bits.
      Above that bound the cast drops chunks and the transfer can never cover the file. */
  lemma SizesSumToTotalExactlyWithinBound(fileId: string, filename: string, totalSize: nat, rootHash: Digest)
    ensures var m := NewManifest(fileId, filename, totalSize, rootHash);
            TotalExpected(m, m.totalChunks) == totalSize <==> totalSize <= MAX_TOTAL_SIZE
  {
    var m := NewManifest(fileId, filename, totalSize, rootHash);
    if totalSize <= MAX_TOTAL_SIZE {
      TotalExpectedIsStart(m, m.totalChunks);
      CountIsCeiling(m);
    } else {
      TotalExpectedBound(m, m.totalChunks);
      assert m.totalChunks <= U32_COUNT - 1;
      assert m.totalChunks * CHUNK_SIZE <= MAX_TOTAL_SIZE;
    }
  }

  /** The smallest file that the 32-bit count cannot describe: it is announced as zero chunks. */
  lemma OversizedFileHasNoChunks(fileId: string, filename: string, rootHash: Digest)
    ensures NewManifest(fileId, filename, MAX_TOTAL_SIZE + 1, rootHash).totalChunks == 0
  {
  }

  lemma ChunksBetweenSnoc(hash: Bytes -> Digest, m: Manifest, source: Bytes, from: nat, upto: nat)
    requires |source| == m.totalSize && from <= upto
    ensures ChunksBetween(hash, m, source, from, upto + 1)
         == ChunksBetween(hash, m, source, from, upto) + [ChunkAt(hash, m, source, upto)]
  {
  }

  lemma PayloadSnoc(hash: Bytes -> Digest, m: Manifest, source: Bytes, from: nat, upto: nat)
    requires |source| == m.totalSize && from <= upto
    ensures Payload(ChunksBetween(hash, m, source, from, upto + 1)) ==
            Payload(ChunksBetween(hash, m, source, from, upto)) + ChunkBytes(m, source, upto)
  {
    var before := ChunksBetween(hash, m, source, from, upto);
    ChunksBetweenSnoc(hash, m, source, from, upto);
    assert (before + [ChunkAt(hash, m, source, upto)])[..|before|] == before;
  }

  /** The honest chunks from any start index carry exactly the source from that byte on. */
  lemma {:induction false} PayloadOfChunks(hash: Bytes -> Digest, m: Manifest, source: Bytes, from: nat, upto: nat)
    requires WellFormed(m) && |source| == m.totalSize
    requires from <= upto <= m.totalChunks
    ensures ChunkStart(m, from) <= ChunkStart(m, upto)
    ensures Payload(ChunksBetween(hash, m, source, from, upto)) == source[ChunkStart(m, from)..ChunkStart(m, upto)]
    decreases upto
  {
    if from == upto {
    } else {
      PayloadOfChunks(hash, m, source, from, upto - 1);
      PayloadSnoc(hash, m, source, from, upto - 1);
      var a, b, c := ChunkStart(m, from), ChunkStart(m, upto - 1), ChunkStart(m, upto);
      assert source[a..b] + source[b..c] == source[a..c];
    }
  }

  /** Specialised to a transfer (re)started at chunk `k`. */
  lemma ChunksFromCoverTheRest(hash: Bytes -> Digest, m: Manifest, source: Bytes, k: nat)
    requires WellFormed(m) && |source| == m.totalSize && k <= m.totalChunks
    ensures Payload(ChunksBetween(hash, m, source, k, m.totalChunks)) == source[Min(k * CHUNK_SIZE, |source|)..]
  {
    CountIsCeiling(m);
    PayloadOfChunks(hash, m, source, k, m.totalChunks);
  }
}
