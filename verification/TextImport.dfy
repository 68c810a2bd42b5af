/** Replacing a source's chunks through bounded batches, any of which may fail. */
module TextImport {
  import opened Basics
  import opened Utf8
  import opened TextChunks

  /** The bytes a chunk's document counts for, none if it is over a limit by itself. */
  type Sizes = (nat, Chunk) -> nat

  datatype Numbered = Numbered(ordinal: nat, chunk: Chunk)

  function Bytes(batch: seq<Numbered>, size: Sizes): nat {
    if batch == [] then 0
    else
      var last := batch[|batch| - 1];
      Bytes(batch[..|batch| - 1], size) + size(last.ordinal, last.chunk)
  }

  /** The chunks of a source in the index, as the importer sees them: a failing call may
      have been applied or not. */
  class ChunkStore {
    const batchSize: nat
    const limit: nat
    const size: Sizes
    ghost var chunks: seq<Numbered>

    constructor (batchSize: nat, limit: nat, size: Sizes)
      ensures chunks == [] && this.batchSize == batchSize && this.limit == limit && this.size == size
    {
      this.batchSize, this.limit, this.size := batchSize, limit, size;
      chunks := [];
    }

    /** Deletes all chunks of the source, old and new. */
    method DeleteSource() returns (ok: bool)
      modifies this
      ensures chunks == [] || (!ok && chunks == old(chunks))
    {
      ok := *;
      ghost var applied: bool := *;
      if ok || applied {
        chunks := [];
      }
    }

    /** Batches respect both bounds; a limit of 0 is no limit. */
    method Submit(batch: seq<Numbered>) returns (ok: bool)
      requires 0 < |batch| <= batchSize && (limit > 0 ==> Bytes(batch, size) <= limit)
      modifies this
      ensures chunks == old(chunks) + batch || (!ok && chunks == old(chunks))
    {
      ok := *;
      ghost var applied: bool := *;
      if ok || applied {
        chunks := chunks + batch;
      }
    }
  }

  datatype Failure = Done | Malformed | TooLarge(ordinal: nat) | DeleteFailed | SubmitFailed

  datatype Progress = Progress(sourceDeleted: bool, committedChunks: nat, committedEndByte: nat)

  function Number(chunks: seq<Chunk>): (r: seq<Numbered>)
    ensures |r| == |chunks| && forall i :: 0 <= i < |chunks| ==> r[i] == Numbered(i, chunks[i])
  {
    if chunks == [] then []
    else Number(chunks[..|chunks| - 1]) + [Numbered(|chunks| - 1, chunks[|chunks| - 1])]
  }

  lemma NumberSnoc(chunks: seq<Chunk>, c: Chunk)
    ensures Number(chunks + [c]) == Number(chunks) + [Numbered(|chunks|, c)]
  {
    assert (chunks + [c])[..|chunks|] == chunks;
  }

  /** Chunks read so far, and how many of them earlier batches have committed. */
  class Importer {
    const store: ChunkStore
    ghost const before: seq<Numbered>
    ghost var read: seq<Chunk>
    var batch: seq<Numbered>
    var batchBytes: nat
    var next: nat
    var batchEnd: nat
    var result: Progress

    ghost predicate Valid()
      reads this, store
    {
      Flushable() && |batch| < store.batchSize
    }

    /** Valid, except that the batch may be full. */
    ghost predicate Flushable()
      reads this, store
    {
      && store.batchSize > 0 && |batch| <= store.batchSize
      && batchBytes == Bytes(batch, store.size) && (store.limit > 0 ==> batchBytes <= store.limit)
      && next == |read| && result.committedChunks + |batch| == next
      && batch == Number(read)[result.committedChunks..]
      && (if result.sourceDeleted then store.chunks == Number(read)[..result.committedChunks] else read == [] && store.chunks == before)
      && result.committedEndByte == LastEndOf(read[..result.committedChunks])
      && (batch != [] ==> batchEnd == LastEndOf(read))
    }

    /** Valid, except that a failed batch may be in the store. */
    ghost predicate Interrupted()
      reads this, store
    {
      && result.committedChunks <= |read| && result.committedEndByte == LastEndOf(read[..result.committedChunks])
      && if result.sourceDeleted then store.chunks == Number(read)[..result.committedChunks] || store.chunks == Number(read)
         else read == [] && (store.chunks == before || store.chunks == [])
    }

    constructor (store: ChunkStore)
      requires store.batchSize > 0
      ensures Valid() && read == [] && this.store == store && before == store.chunks && batch == [] && result == Progress(false, 0, 0)
    {
      this.store, before := store, store.chunks;
      read, batch, batchBytes, next, batchEnd, result := [], [], 0, 0, 0, Progress(false, 0, 0);
    }

    /** What a caller may conclude at any return. */
    lemma Reported()
      ensures Valid() ==> Flushable() && Interrupted() && next == |read|
      ensures Valid() && !result.sourceDeleted ==> read == [] && store.chunks == before
      ensures Flushable() && result.sourceDeleted && result.committedChunks == |read| ==> store.chunks == Number(read)
      ensures Interrupted() ==>
        && result.committedChunks <= |read| && result.committedEndByte == LastEndOf(read[..result.committedChunks])
        && if result.sourceDeleted then Number(read)[..result.committedChunks] <= store.chunks <= Number(read)
           else read == [] && (store.chunks == before || store.chunks == [])
    {
      assert Number(read)[..|read|] == Number(read);
    }

    /** Deletes the old chunks. */
    method Delete() returns (ok: bool)
      requires Valid() && !result.sourceDeleted
      modifies this, store
      ensures read == old(read) && result == (if ok then old(result).(sourceDeleted := true) else old(result))
      ensures Interrupted() && (ok ==> Valid())
    {
      ok := store.DeleteSource();
      if ok {
        result := result.(sourceDeleted := true);
      }
    }

    method Flush() returns (ok: bool)
      requires Flushable() && result.sourceDeleted
      modifies this, store
      ensures read == old(read) && result.sourceDeleted
      ensures ok ==> Valid() && batch == [] && result.committedChunks == |read| && next == old(next)
      ensures !ok ==> Interrupted() && result == old(result)
    {
      if batch == [] {
        return true;
      }
      ok := store.Submit(batch);
      assert Number(read)[..result.committedChunks] + Number(read)[result.committedChunks..] == Number(read);
      if !ok {
        return;
      }
      assert read[..|read|] == read && Number(read)[..|read|] == Number(read);
      result := result.(committedChunks := next, committedEndByte := batchEnd);
      batch, batchBytes := [], 0;
    }

    /** Adds a chunk to the batch, submitting first when it would grow too large and
        afterwards when it is full. */
    method Add(c: Chunk, bytes: nat) returns (ok: bool)
      requires Valid() && result.sourceDeleted && bytes == store.size(next, c) && (store.limit > 0 ==> bytes <= store.limit)
      modifies this, store
      ensures ok ==> Valid() && read == old(read) + [c]
      ensures ok ==>
        var early := store.limit > 0 && old(batchBytes) + bytes > store.limit;
        var grown := (if early then [] else old(batch)) + [Numbered(old(next), c)];
        if |grown| == store.batchSize then batch == [] && result.committedChunks == |read|
        else batch == grown && result.committedChunks == if early then |old(read)| else old(result.committedChunks)
      ensures !ok ==> Interrupted() && (read == old(read) || read == old(read) + [c])
      ensures result.sourceDeleted
    {
      if store.limit > 0 && bytes > store.limit - batchBytes {
        ok := Flush();
        if !ok {
          return;
        }
      }
      Append(c, bytes);
      ok := true;
      if |batch| >= store.batchSize {
        ok := Flush();
      }
    }

    method Append(c: Chunk, bytes: nat)
      requires Valid() && result.sourceDeleted && bytes == store.size(next, c) && |batch| < store.batchSize
      requires store.limit > 0 ==> batchBytes + bytes <= store.limit
      modifies this
      ensures Flushable() && read == old(read) + [c] && result == old(result)
      ensures batch == old(batch) + [Numbered(old(next), c)]
    {
      NumberSnoc(read, c);
      assert (batch + [Numbered(next, c)])[..|batch|] == batch;
      assert (read + [c])[..result.committedChunks] == read[..result.committedChunks];
      batch := batch + [Numbered(next, c)];
      read := read + [c];
      next := next + 1;
      batchBytes := batchBytes + bytes;
      batchEnd := c.end;
    }
  }

  /** Imports a source: deletes the old chunks once the first new chunk is known to be good,
      then submits the new ones in order. However it ends, the committed chunks are the
      first ones of the source and cover its bytes up to the committed end. */
  method ImportText(source: seq<Byte>, maxChunkBytes: nat, overlapBytes: nat, store: ChunkStore)
    returns (result: Progress, failure: Failure, ghost read: seq<Chunk>)
    requires UTF_MAX <= maxChunkBytes && overlapBytes < maxChunkBytes
    requires store.batchSize > 0
    modifies store
    ensures Chain(source, maxChunkBytes, overlapBytes, read) && LastEndOf(read) <= |source|
    ensures result.committedChunks <= |read| && result.committedEndByte == LastEndOf(read[..result.committedChunks])
    ensures result.sourceDeleted ==> Number(read)[..result.committedChunks] <= store.chunks <= Number(read)
    ensures !result.sourceDeleted ==>
      read == [] && (store.chunks == old(store.chunks) || (failure.DeleteFailed? && store.chunks == []))
    ensures failure.Done? ==>
      && ValidText(source) && result.sourceDeleted && store.chunks == Number(read)
      && Joined(read) == source && EndsRise(read) && result.committedEndByte == |source|
    ensures failure.Malformed? ==> !ValidText(source)
    ensures failure.TooLarge? ==> store.limit > 0
    ensures !result.sourceDeleted ==> result.committedChunks == 0
  {
    hide ValidText, Width, IsChunk, Joined, Chain, Bytes, EndsRise, Number,
      TextChunkReader.Valid, TextChunkReader.Roomy, Importer.Valid, Importer.Flushable, Importer.Interrupted;
    var reader := new TextChunkReader(source, maxChunkBytes, overlapBytes);
    var importer := new Importer(store);
    NothingIsValid();
    NothingJoined(source);
    NoChain(source, maxChunkBytes, overlapBytes);
    reader.InBounds();
    var stop: Option<Failure> := None;
    while stop.None?
      invariant fresh(reader) && fresh(importer) && reader.Fixed(source, maxChunkBytes, overlapBytes) && importer.store == store
      invariant importer.before == old(store.chunks)
      invariant Tracks(reader, importer)
      invariant stop.None? ==> Going(reader, importer)
      invariant stop.Some? ==> Stopped(reader, importer, stop.value)
      decreases stop.None?, |source| - reader.start
    {
      stop := Step(reader, importer);
    }
    importer.Reported();
    result, failure, read := importer.result, stop.value, importer.read;
  }

  /** The chunks read so far are a prefix of the source's chunks. */
  ghost predicate Tracks(reader: TextChunkReader, importer: Importer)
    reads importer
  {
    && Chain(reader.source, reader.maxChunkBytes, reader.overlapBytes, importer.read)
    && LastEndOf(importer.read) <= |reader.source|
    && (importer.result.committedChunks > 0 ==> importer.result.sourceDeleted)
  }

  ghost predicate Going(reader: TextChunkReader, importer: Importer)
    reads reader, importer, importer.store
  {
    && reader.Valid() && importer.Valid() && reader.start <= |reader.source|
    && (ValidText(reader.source) ==> reader.Roomy() && EndsRise(importer.read))
    && reader.end == LastEndOf(importer.read) <= |reader.source|
    && Joined(importer.read) == reader.source[..reader.end]
    && (if importer.read == [] then reader.start == 0 else importer.read[|importer.read| - 1].start < reader.start)
    && (importer.read == [] || importer.result.sourceDeleted)
  }

  ghost predicate Stopped(reader: TextChunkReader, importer: Importer, failure: Failure)
    reads importer, importer.store
  {
    && importer.Interrupted()
    && (!importer.result.sourceDeleted && !failure.DeleteFailed? ==> importer.store.chunks == importer.before)
    && (failure.Malformed? ==> !ValidText(reader.source))
    && (failure.TooLarge? ==> importer.store.limit > 0)
    && (failure.Done? ==>
          && ValidText(reader.source) && importer.result.sourceDeleted && importer.store.chunks == Number(importer.read)
          && Joined(importer.read) == reader.source && EndsRise(importer.read)
          && importer.result.committedEndByte == |reader.source|)
  }

  /** Reads one chunk and hands it on, or finds out that the import ends here. */
  method Step(reader: TextChunkReader, importer: Importer) returns (stop: Option<Failure>)
    requires Tracks(reader, importer) && Going(reader, importer)
    modifies reader, importer, importer.store
    ensures Tracks(reader, importer)
    ensures stop.None? ==> Going(reader, importer) && old(reader.start) < reader.start
    ensures stop.Some? ==> Stopped(reader, importer, stop.value)
  {
    hide ValidText, Width, IsChunk, Joined, Chain, Bytes, EndsRise, Number,
      TextChunkReader.Valid, TextChunkReader.Roomy, Importer.Valid, Importer.Flushable, Importer.Interrupted;
    var store := importer.store;
    reader.InBounds();
    var r := reader.Next();
    reader.InBounds();
    importer.Reported();
    if r.InvalidText? {
      return Some(Malformed);
    }
    if r.Read? && store.limit > 0 && store.size(importer.next, r.chunk) > store.limit {
      return Some(TooLarge(importer.next));
    }
    if !importer.result.sourceDeleted {
      var deleted := importer.Delete();
      importer.Reported();
      if !deleted {
        return Some(DeleteFailed);
      }
    }
    if r.EndOfText? {
      var flushed := importer.Flush();
      importer.Reported();
      assert importer.read[..|importer.read|] == importer.read && reader.source[..|reader.source|] == reader.source;
      return Some(if flushed then Done else SubmitFailed);
    }
    stop := Take(reader, importer, r.chunk);
  }

  method Take(reader: TextChunkReader, importer: Importer, c: Chunk) returns (stop: Option<Failure>)
    requires Tracks(reader, importer) && importer.Valid() && reader.Valid() && importer.result.sourceDeleted
    requires importer.store.limit > 0 ==> importer.store.size(importer.next, c) <= importer.store.limit
    requires ValidText(reader.source) ==> reader.Roomy() && EndsRise(importer.read) && LastEndOf(importer.read) < c.end
    requires c.start <= LastEndOf(importer.read) <= c.end == reader.end <= |reader.source| && c.start < reader.start
    requires c.start < c.end && c.text == reader.source[c.start..c.end] && |c.text| <= reader.maxChunkBytes && ValidText(c.text)
    requires LastEndOf(importer.read) - c.start <= reader.overlapBytes
    requires if importer.read == [] then c.start == 0 else importer.read[|importer.read| - 1].start < c.start
    requires Joined(importer.read) == reader.source[..LastEndOf(importer.read)]
    modifies importer, importer.store
    ensures Tracks(reader, importer)
    ensures stop.None? ==> Going(reader, importer)
    ensures stop.Some? ==> stop == Some(SubmitFailed) && Stopped(reader, importer, SubmitFailed)
  {
    hide ValidText, Width, IsChunk, Joined, Chain, Bytes, EndsRise, Number,
      TextChunkReader.Valid, TextChunkReader.Roomy, Importer.Valid, Importer.Flushable, Importer.Interrupted;
    ghost var source, read := reader.source, importer.read;
    reader.InBounds();
    importer.Reported();
    ChunkIs(source, reader.maxChunkBytes, c);
    JoinedSnoc(source, reader.maxChunkBytes, read, c);
    ChainSnoc(source, reader.maxChunkBytes, reader.overlapBytes, read, c);
    var added := importer.Add(c, importer.store.size(importer.next, c));
    importer.Reported();
    stop := if added then None else Some(SubmitFailed);
  }

  lemma NoChain(source: seq<Byte>, max: nat, overlap: nat)
    ensures Chain(source, max, overlap, []) && EndsRise([])
  {
  }
}
