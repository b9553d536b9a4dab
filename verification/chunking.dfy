/** Splitting a file's bytes into fixed-size blocks on the sending side and
    joining blocks back together on the receiving side
    (src/service/TCPProvider.tsx, `sendFileAck` and `generateFile`). */
module Chunking {

  type Bytes = seq<bv8>

  /** The sender's block size, `1024 * 8` bytes. */
  const ChunkSize: nat := 8192

  function Min(a: nat, b: nat): nat {
    if a <= b then a else b
  }

  /** Number of blocks needed for `len` bytes: the ceiling of len / ChunkSize. */
  function CeilDiv(len: nat): nat {
    (len + ChunkSize - 1) / ChunkSize
  }

  /** `Buffer.concat`: the blocks joined in index order, so the first block
      leads the result. */
  function Flatten(cs: seq<Bytes>): (r: Bytes)
    ensures |cs| > 0 ==> cs[0] <= r
  {
    if |cs| == 0 then [] else cs[0] + Flatten(cs[1..])
  }

  /** Every block holds 1..ChunkSize bytes and every block but the last is full. */
  ghost predicate WellSized(cs: seq<Bytes>) {
    && (forall i :: 0 <= i < |cs| ==> 1 <= |cs[i]| <= ChunkSize)
    && (forall i :: 0 <= i < |cs| - 1 ==> |cs[i]| == ChunkSize)
  }

  /** The blocks the sender's loop produces: successive slices
      `buf.slice(offset, offset + ChunkSize)`, the slice end clamped to the
      buffer, until the offset reaches the end. */
  function Chunks(buf: Bytes): (r: seq<Bytes>)
    ensures r == [] <==> buf == []
    decreases |buf|
  {
    if |buf| == 0 then []
    else
      var n := Min(ChunkSize, |buf|);
      [buf[..n]] + Chunks(buf[n..])
  }

  /** Round trip: joining the blocks in index order gives back the file, for
      every length including 0. */
  lemma {:induction false} ChunksRoundTrip(buf: Bytes)
    ensures Flatten(Chunks(buf)) == buf
    decreases |buf|
  {
    if |buf| > 0 {
      var n := Min(ChunkSize, |buf|);
      var cs := Chunks(buf);
      assert cs[0] == buf[..n] && cs[1..] == Chunks(buf[n..]);
      ChunksRoundTrip(buf[n..]);
      assert buf == buf[..n] + buf[n..];
    }
  }

  /** Every block holds 1..ChunkSize bytes and every block but the last is full. */
  lemma {:induction false} ChunksWellSized(buf: Bytes)
    ensures WellSized(Chunks(buf))
    decreases |buf|
  {
    if |buf| > 0 {
      var n := Min(ChunkSize, |buf|);
      ChunksWellSized(buf[n..]);
      var cs := Chunks(buf);
      var rest := Chunks(buf[n..]);
      assert cs == [buf[..n]] + rest;
      forall i | 0 <= i < |cs|
        ensures 1 <= |cs[i]| <= ChunkSize
      {
        if i > 0 { assert cs[i] == rest[i - 1]; }
      }
      forall i | 0 <= i < |cs| - 1
        ensures |cs[i]| == ChunkSize
      {
        if i > 0 { assert cs[i] == rest[i - 1]; }
        else { assert |rest| > 0; assert |buf[n..]| > 0; }
      }
    }
  }

  /** The block count is the ceiling of len / ChunkSize: 0 for an empty file. */
  lemma {:induction false} ChunksCount(buf: Bytes)
    ensures |Chunks(buf)| == CeilDiv(|buf|)
    decreases |buf|
  {
    if |buf| > 0 {
      var n := Min(ChunkSize, |buf|);
      ChunksCount(buf[n..]);
      if |buf| > ChunkSize {
        assert CeilDiv(|buf|) == CeilDiv(|buf| - ChunkSize) + 1;
      }
    }
  }

  /** One iteration of the sending loop peels exactly one block off the rest. */
  lemma ChunksStep(buf: Bytes, offset: nat)
    requires offset < |buf|
    ensures var end := Min(offset + ChunkSize, |buf|);
      Chunks(buf[offset..]) == [buf[offset..end]] + Chunks(buf[end..])
  {
    var end := Min(offset + ChunkSize, |buf|);
    assert buf[offset..][..end - offset] == buf[offset..end];
    assert buf[offset..][end - offset..] == buf[end..];
  }

  /** The sending loop itself, with its two counters. */
  method ChunkFile(buf: Bytes) returns (chunkArray: seq<Bytes>, totalChunks: nat)
    ensures chunkArray == Chunks(buf)
    ensures totalChunks == |chunkArray|
  {
    totalChunks := 0;
    var offset: nat := 0;
    chunkArray := [];
    assert buf[0..] == buf;
    while offset < |buf|
      invariant offset <= |buf|
      invariant chunkArray + Chunks(buf[offset..]) == Chunks(buf)
      invariant totalChunks == |chunkArray|
      decreases |buf| - offset
    {
      var end := Min(offset + ChunkSize, |buf|);
      var chunk := buf[offset..end];
      ChunksStep(buf, offset);
      assert chunkArray + [chunk] + Chunks(buf[end..]) == chunkArray + ([chunk] + Chunks(buf[end..]));
      totalChunks := totalChunks + 1;
      chunkArray := chunkArray + [chunk];
      offset := end;
    }
    assert buf[offset..] == [];
  }

  /** Joining a list extended by one block extends the joined bytes by that block. */
  lemma {:induction false} FlattenSnoc(cs: seq<Bytes>, c: Bytes)
    ensures Flatten(cs + [c]) == Flatten(cs) + c
    decreases |cs|
  {
    if |cs| == 0 {
      assert [c][1..] == [];
    } else {
      assert (cs + [c])[1..] == cs[1..] + [c];
      FlattenSnoc(cs[1..], c);
    }
  }

  /** The joined length is the sum of the block lengths, seen one prefix at a time. */
  lemma FlattenPrefixStep(cs: seq<Bytes>, j: nat)
    requires j < |cs|
    ensures Flatten(cs[..j + 1]) == Flatten(cs[..j]) + cs[j]
  {
    assert cs[..j + 1] == cs[..j] + [cs[j]];
    FlattenSnoc(cs[..j], cs[j]);
  }

  /** The last block holds `len mod ChunkSize` bytes, or a full block when the
      length is a non-zero multiple of ChunkSize. */
  lemma {:induction false} LastChunkSize(buf: Bytes)
    requires |buf| > 0
    ensures var cs := Chunks(buf);
      |cs| > 0 && |cs[|cs| - 1]| == if |buf| % ChunkSize == 0 then ChunkSize else |buf| % ChunkSize
    decreases |buf|
  {
    var n := Min(ChunkSize, |buf|);
    if |buf| > ChunkSize {
      LastChunkSize(buf[n..]);
      assert (|buf| - ChunkSize) % ChunkSize == |buf| % ChunkSize;
    }
  }

  /** A 20000-byte file travels as blocks of 8192, 8192 and 3616 bytes. */
  lemma TwentyThousandBytes(buf: Bytes)
    requires |buf| == 20000
    ensures var cs := Chunks(buf);
      |cs| == 3 && |cs[0]| == 8192 && |cs[1]| == 8192 && |cs[2]| == 3616
  {
    ChunksCount(buf);
    ChunksWellSized(buf);
    LastChunkSize(buf);
  }

  /** An empty file has no blocks at all. */
  lemma EmptyFileHasNoChunks(buf: Bytes)
    requires |buf| == 0
    ensures Chunks(buf) == []
  {
  }
}
