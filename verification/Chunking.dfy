/** Messages too large for one request (yasl/link/transport/channel_brpc.cc, channel.cc): cut into
    chunks, pushed in batches, and put together again by the handler threads of the receiver, one
    thread a chunk, in any interleaving. Each chunk arrives once and a key is used for one message. */
module Chunking {
  import opened Numbers
  import opened Wrappers

  // ---- The sender ----

  datatype BatchDesc = BatchDesc(index: nat, batchSize: nat, totalSize: nat) {
    function Begin(): nat {
      index * batchSize
    }

    function End(): nat {
      if Begin() + batchSize < totalSize then Begin() + batchSize else totalSize
    }

    function Size(): nat
      requires Begin() <= totalSize
    {
      End() - Begin()
    }
  }

  predicate InBatch(c: nat, b: nat, size: nat, total: nat) {
    BatchDesc(b, size, total).Begin() <= c < BatchDesc(b, size, total).End()
  }

  /** No batch is empty, and every index is in exactly one. */
  lemma BatchesPartition(total: nat, size: nat, c: nat) returns (b: nat)
    requires size > 0 && c < total
    ensures b < DivUp(total, size) && InBatch(c, b, size, total)
    ensures forall j: nat | InBatch(c, j, size, total) :: j == b
    ensures forall j: nat | j < DivUp(total, size) :: InBatch(BatchDesc(j, size, total).Begin(), j, size, total)
  {
    b := PieceOf(total, size, c);
    MulStep(b, size);
    DivUpMeaning(total, size);
    forall j: nat | InBatch(c, j, size, total)
      ensures j == b
    {
      MulStep(j, size);
      if j < b {
        MulMonotone(j + 1, b, size);
      } else if j > b {
        MulMonotone(b + 1, j, size);
      }
    }
    forall j: nat | j < DivUp(total, size)
      ensures InBatch(BatchDesc(j, size, total).Begin(), j, size, total)
    {
      MulMonotone(j, DivUp(total, size) - 1, size);
    }
  }

  /** A request of type CHUNKED. */
  datatype Push = Push(chunkIndex: nat, numChunks: nat, value: Buffer)

  /** How much of the payload the first k chunks cover. */
  function Covered(k: nat, bytesPerChunk: nat, length: nat): nat {
    if k * bytesPerChunk < length then k * bytesPerChunk else length
  }

  /** The k-th chunk of a payload. */
  function Chunk(payload: Buffer, k: nat, bytesPerChunk: nat): Buffer {
    MulStep(k, bytesPerChunk);
    payload[Covered(k, bytesPerChunk, |payload|)..Covered(k + 1, bytesPerChunk, |payload|)]
  }

  const PARALLEL_SIZE: nat := 10

  /** What `SendChunked` has pushed after k chunks. */
  predicate PushedUpTo(pushes: seq<Push>, value: Buffer, bytesPerChunk: nat, numChunks: nat, k: nat) {
    |pushes| == k && forall j | 0 <= j < k :: pushes[j] == Push(j, numChunks, Chunk(value, j, bytesPerChunk))
  }

  /** The slice the source takes is the chunk. */
  lemma ChunkSlice(value: Buffer, bytesPerChunk: nat, k: nat)
    requires bytesPerChunk > 0 && k < DivUp(|value|, bytesPerChunk)
    ensures k * bytesPerChunk < |value|
    ensures var offset := k * bytesPerChunk;
            var size := if bytesPerChunk < |value| - offset then bytesPerChunk else |value| - offset;
            Chunk(value, k, bytesPerChunk) == value[offset..offset + size]
  {
    DivUpMeaning(|value|, bytesPerChunk);
    MulMonotone(k, DivUp(|value|, bytesPerChunk) - 1, bytesPerChunk);
    MulStep(k, bytesPerChunk);
  }

  /** One batch of requests. */
  method PushBatch(value: Buffer, bytesPerChunk: nat, batch: BatchDesc, before: seq<Push>) returns (pushes: seq<Push>)
    requires bytesPerChunk > 0 && batch.totalSize == DivUp(|value|, bytesPerChunk) && batch.Begin() <= batch.totalSize
    requires PushedUpTo(before, value, bytesPerChunk, batch.totalSize, batch.Begin())
    ensures PushedUpTo(pushes, value, bytesPerChunk, batch.totalSize, batch.End())
  {
    hide DivUp, Chunk;
    pushes := before;
    for idx := 0 to batch.Size()
      invariant PushedUpTo(pushes, value, bytesPerChunk, batch.totalSize, batch.Begin() + idx)
    {
      var chunkIdx := batch.Begin() + idx;
      var chunkOffset := chunkIdx * bytesPerChunk;
      ChunkSlice(value, bytesPerChunk, chunkIdx);
      var size := if bytesPerChunk < |value| - chunkOffset then bytesPerChunk else |value| - chunkOffset;
      pushes := pushes + [Push(chunkIdx, batch.totalSize, value[chunkOffset..chunkOffset + size])];
    }
  }

  /** `SendChunked`: every chunk is pushed once, batch after batch. */
  method SendChunked(value: Buffer, bytesPerChunk: nat) returns (pushes: seq<Push>)
    requires bytesPerChunk > 0
    ensures PushedUpTo(pushes, value, bytesPerChunk, DivUp(|value|, bytesPerChunk), DivUp(|value|, bytesPerChunk))
  {
    var numChunks := DivUp(|value|, bytesPerChunk);
    var numBatches := DivUp(numChunks, PARALLEL_SIZE);
    hide DivUp, Chunk;
    DivUpMeaning(numChunks, PARALLEL_SIZE);
    pushes := [];
    for batchIdx := 0 to numBatches
      invariant PushedUpTo(pushes, value, bytesPerChunk, numChunks,
                           if batchIdx * PARALLEL_SIZE < numChunks then batchIdx * PARALLEL_SIZE else numChunks)
    {
      pushes := PushBatch(value, bytesPerChunk, BatchDesc(batchIdx, PARALLEL_SIZE, numChunks), pushes);
    }
  }

  // ---- ChunkedMessage ----

  /** The chunks with indices below k, in index order. */
  function Joined(chunks: map<nat, Buffer>, k: nat): Buffer {
    if k == 0 then [] else Joined(chunks, k - 1) + (if k - 1 in chunks then chunks[k - 1] else [])
  }

  lemma {:induction false} JoinedAdd(chunks: map<nat, Buffer>, index: nat, data: Buffer, k: nat)
    requires index !in chunks
    ensures |Joined(chunks[index := data], k)| == |Joined(chunks, k)| + if index < k then |data| else 0
  {
    if k > 0 {
      JoinedAdd(chunks, index, data, k - 1);
    }
  }

  lemma {:induction false} JoinedMonotone(chunks: map<nat, Buffer>, j: nat, k: nat)
    requires j <= k
    ensures |Joined(chunks, j)| <= |Joined(chunks, k)|
    ensures Joined(chunks, k)[..|Joined(chunks, j)|] == Joined(chunks, j)
  {
    if j < k {
      JoinedMonotone(chunks, j, k - 1);
    }
  }

  lemma CoveredStep(k: nat, bytesPerChunk: nat, length: nat)
    ensures Covered(k, bytesPerChunk, length) <= Covered(k + 1, bytesPerChunk, length) <= length
  {
    MulStep(k, bytesPerChunk);
  }

  lemma NothingCovered(bytesPerChunk: nat, length: nat)
    ensures Covered(0, bytesPerChunk, length) == 0
  {
  }

  /** Chunks of a payload, joined in order, are the payload. */
  lemma {:induction false} JoinedChunks(chunks: map<nat, Buffer>, payload: Buffer, bytesPerChunk: nat, k: nat)
    requires forall j: nat | j < k :: j in chunks && chunks[j] == Chunk(payload, j, bytesPerChunk)
    ensures Joined(chunks, k) == payload[..Covered(k, bytesPerChunk, |payload|)]
  {
    hide Covered;
    if k == 0 {
      NothingCovered(bytesPerChunk, |payload|);
    } else {
      JoinedChunks(chunks, payload, bytesPerChunk, k - 1);
      CoveredStep(k - 1, bytesPerChunk, |payload|);
    }
  }

  /** The fields of a `ChunkedMessage`. */
  datatype Object = Object(numChunks: nat, chunks: map<nat, Buffer>, messageSize: nat)

  /** The buffer made by reassembling has the size of the chunks. */
  predicate WellSized(o: Object) {
    (forall k | k in o.chunks :: k < o.numChunks) && o.messageSize == |Joined(o.chunks, o.numChunks)|
  }

  function Empty(numChunks: nat): Object {
    Object(numChunks, map[], 0)
  }

  /** As many chunks as expected. */
  predicate IsFullyFilled(o: Object) {
    |o.chunks| == o.numChunks
  }

  /** A second chunk with an index is dropped, but its size still added. */
  function WithChunk(o: Object, index: nat, data: Buffer): Object {
    Object(o.numChunks, if index in o.chunks then o.chunks else o.chunks[index := data], o.messageSize + |data|)
  }

  /** The size stays right exactly if the index is new or the chunk empty. */
  lemma WithChunkSized(o: Object, index: nat, data: Buffer)
    requires WellSized(o) && index < o.numChunks
    ensures WellSized(WithChunk(o, index, data)) <==> index !in o.chunks || data == []
  {
    if index !in o.chunks {
      JoinedAdd(o.chunks, index, data, o.numChunks);
    }
  }

  class ChunkedMessage {
    const numChunks: nat
    var chunks: map<nat, Buffer>
    var messageSize: nat

    ghost function Contents(): Object
      reads this
    {
      Object(numChunks, chunks, messageSize)
    }

    constructor (numChunks: nat)
      ensures Contents() == Empty(numChunks)
    {
      this.numChunks, chunks, messageSize := numChunks, map[], 0;
    }

    method AddChunk(index: nat, data: Buffer)
      modifies this
      ensures Contents() == WithChunk(old(Contents()), index, data)
    {
      if index !in chunks {
        chunks := chunks[index := data];
      }
      messageSize := messageSize + |data|;
    }

    /** Copies the chunks into one buffer, in index order, and empties the message. */
    method Reassemble() returns (out: array<nat>)
      requires WellSized(Contents())
      modifies this
      ensures fresh(out) && out[..] == Joined(old(chunks), numChunks)
      ensures Contents() == Empty(numChunks)
    {
      out := new nat[messageSize](_ => 0);
      var bytesWritten := 0;
      for k := 0 to numChunks
        invariant bytesWritten == |Joined(chunks, k)| <= out.Length
        invariant out[..bytesWritten] == Joined(chunks, k)
        invariant chunks == old(chunks) && messageSize == old(messageSize)
      {
        if k in chunks {
          JoinedMonotone(chunks, k + 1, numChunks);
          forall i | 0 <= i < |chunks[k]| {
            out[bytesWritten + i] := chunks[k][i];
          }
          bytesWritten := bytesWritten + |chunks[k]|;
        }
      }
      messageSize, chunks := 0, map[];
    }
  }

  lemma {:induction false} NothingJoined(k: nat)
    ensures Joined(map[], k) == []
  {
    if k > 0 {
      NothingJoined(k - 1);
    }
  }
}
