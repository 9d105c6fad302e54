/** The chunk source (crates/bridge-transfer/src/sender.rs). */
module Sender {
  import opened Common
  import opened Chunks

  /** Streams `source` in chunks. `position` is the file cursor, `currentChunk` the index to send next. */
  class FileSender {
    const manifest: Manifest
    const hash: Bytes -> Digest
    const source: Bytes
    var position: nat
    var currentChunk: nat

    /** The cursor stands at the chunk to be sent, as long as one is left. */
    ghost predicate Aligned()
      reads this
    {
      currentChunk < manifest.totalChunks ==> position == currentChunk * CHUNK_SIZE
    }

    /** The manifest describes this source. */
    ghost predicate Describes() {
      WellFormed(manifest) && |source| == manifest.totalSize
    }

    constructor (manifest: Manifest, hash: Bytes -> Digest, source: Bytes, startChunk: nat)
      ensures this.manifest == manifest && this.hash == hash && this.source == source
      ensures currentChunk == startChunk && position == startChunk * CHUNK_SIZE
    {
      this.manifest := manifest;
      this.hash := hash;
      this.source := source;
      this.position := startChunk * CHUNK_SIZE;
      this.currentChunk := startChunk;
    }

    /** `from_bytes` and `from_file`: a start index past the end is refused. */
    static method Open(manifest: Manifest, hash: Bytes -> Digest, source: Bytes, startChunk: nat)
      returns (r: Result<FileSender, TransferError>)
      ensures startChunk > manifest.totalChunks ==> r == Err(InvalidResumeOffset)
      ensures startChunk <= manifest.totalChunks ==> r.Ok? && fresh(r.value)
      ensures r.Ok? ==> r.value.manifest == manifest && r.value.hash == hash && r.value.source == source
      ensures r.Ok? ==> r.value.currentChunk == startChunk && r.value.Aligned()
    {
      if startChunk > manifest.totalChunks {
        return Err(InvalidResumeOffset);
      }
      var s := new FileSender(manifest, hash, source, startChunk);
      return Ok(s);
    }

    method SeekToChunk(index: nat) returns (r: Result<(), TransferError>)
      modifies this
      ensures index > manifest.totalChunks ==> r == Err(InvalidResumeOffset) && unchanged(this)
      ensures index <= manifest.totalChunks ==> r == Ok(()) && currentChunk == index && Aligned()
      ensures old(Aligned()) ==> Aligned()
    {
      if index > manifest.totalChunks {
        return Err(InvalidResumeOffset);
      }
      position := index * CHUNK_SIZE;
      currentChunk := index;
      return Ok(());
    }

    /** `next_chunk`. A short read fails and leaves the cursor at the end of what there was to read,
        so alignment survives every call that succeeds. */
    method NextChunk() returns (r: Result<Option<FileChunk>, TransferError>)
      modifies this
      ensures old(currentChunk) >= manifest.totalChunks ==> r == Ok(None) && unchanged(this)
      ensures r.Err? ==> currentChunk == old(currentChunk)
      ensures r.Ok? && r.value.Some? ==> currentChunk == old(currentChunk) + 1
      ensures old(Aligned()) && r.Ok? ==> Aligned()
      ensures old(Aligned()) && Describes() && old(currentChunk) < manifest.totalChunks ==>
                r == Ok(Some(ChunkAt(hash, manifest, source, old(currentChunk))))
      ensures r.Ok? && r.value.Some? ==>
                && position == old(position) + |r.value.value.data|
                && old(position) <= position <= |source|
                && r.value.value == NewChunk(hash, manifest.fileId, old(currentChunk),
                     old(currentChunk) * CHUNK_SIZE, source[old(position)..position])
      ensures old(currentChunk) < manifest.totalChunks ==>
                var size := ExpectedChunkSize(manifest, old(currentChunk)).value;
                if old(position) + size > |source| then r == Err(UnexpectedEof)
                else r.Ok? && r.value.Some? && |r.value.value.data| == size
      ensures r.Err? ==> position == if old(position) < |source| then |source| else old(position)
    {
      if currentChunk >= manifest.totalChunks {
        return Ok(None);
      }
      var index := currentChunk;
      var size := ExpectedChunkSize(manifest, index).value;
      var offset := index * CHUNK_SIZE;
      if position + size > |source| {
        position := if position < |source| then |source| else position;
        return Err(UnexpectedEof);
      }
      var data := source[position..position + size];
      position := position + size;
      currentChunk := index + 1;
      return Ok(Some(NewChunk(hash, manifest.fileId, index, offset, data)));
    }

    /** Draining the sender from an aligned state yields the honest chunks from there to the end,
        and together they carry the source from that byte on. */
    method Drain() returns (chunks: seq<FileChunk>)
      requires Describes() && Aligned() && currentChunk <= manifest.totalChunks
      modifies this
      ensures currentChunk == manifest.totalChunks
      ensures chunks == ChunksBetween(hash, manifest, source, old(currentChunk), manifest.totalChunks)
      ensures Payload(chunks) == source[Min(old(currentChunk) * CHUNK_SIZE, |source|)..]
    {
      ghost var k := currentChunk;
      chunks := [];
      while true
        invariant Aligned() && k <= currentChunk <= manifest.totalChunks
        invariant chunks == ChunksBetween(hash, manifest, source, k, currentChunk)
        decreases manifest.totalChunks - currentChunk
      {
        var next := NextChunk();
        if next.Err? || next.value.None? {
          break;
        }
        ChunksBetweenSnoc(hash, manifest, source, k, currentChunk - 1);
        chunks := chunks + [next.value.value];
      }
      ChunksFromCoverTheRest(hash, manifest, source, k);
    }
  }
}
