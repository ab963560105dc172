/** The sending side of the framing layer: cutting a payload into chunks
    and laying out the frame stream START, one DATA per chunk, END. */
module Generator {
  import opened JsText
  import opened Types
  import Checksum
  import opened Protocol

  // ---------------------------------------------------------------------
  // Chunking

  /** The chunks the `chunkData` loop pushes once its counter has reached
      `start`: `data.slice(start, start + chunkSize)`, then the rest. */
  function ChunksFrom(data: JsString, chunkSize: int, start: nat): (chunks: seq<JsString>)
    requires chunkSize > 0
    decreases |data| - start
  {
    if start >= |data| then []
    else [Slice(data, start, start + chunkSize)] + ChunksFrom(data, chunkSize, start + chunkSize)
  }

  /** Every chunk is non-empty and at most `chunkSize` long, and all but the
      last are exactly `chunkSize` long. */
  predicate WellCut(chunks: seq<JsString>, chunkSize: int)
  {
    && (forall j :: 0 <= j < |chunks| ==> 1 <= |chunks[j]| <= chunkSize)
    && (forall j :: 0 <= j < |chunks| - 1 ==> |chunks[j]| == chunkSize)
  }

  /** `chunkData(data, chunkSize)`. The chunks join back to `data`, there
      are none exactly when `data` is empty, and they are cut as `WellCut`
      says.
      With empty data the loop body never runs, whatever the chunk size; any
      other call with `chunkSize <= 0` never terminates in the source, which
      is why it is excluded here. */
  function ChunkData(data: JsString, chunkSize: int): (chunks: seq<JsString>)
    requires chunkSize > 0 || |data| == 0
    ensures Concat(chunks) == data
    ensures chunks == [] <==> |data| == 0
    ensures WellCut(chunks, chunkSize)
  {
    if |data| == 0 then []
    else
      var chunks := ChunksFrom(data, chunkSize, 0);
      ChunksFromJoin(data, chunkSize, 0);
      ChunksFromLengths(data, chunkSize, 0);
      assert data[0..] == data;
      chunks
  }

  /** Joined, the chunks from `start` on give back the rest of `data`. */
  lemma {:induction false} ChunksFromJoin(data: JsString, chunkSize: int, start: nat)
    requires chunkSize > 0
    ensures Concat(ChunksFrom(data, chunkSize, start)) == (if start < |data| then data[start..] else [])
    decreases |data| - start
  {
    if start < |data| {
      var chunks := ChunksFrom(data, chunkSize, start);
      var rest := ChunksFrom(data, chunkSize, start + chunkSize);
      ChunksFromJoin(data, chunkSize, start + chunkSize);
      assert chunks[1..] == rest;
      if start + chunkSize < |data| {
        assert data[start..] == data[start..start + chunkSize] + data[start + chunkSize..];
      }
    }
  }

  /** The chunks from `start` on are cut as `WellCut` says. */
  lemma {:induction false} ChunksFromLengths(data: JsString, chunkSize: int, start: nat)
    requires chunkSize > 0
    ensures WellCut(ChunksFrom(data, chunkSize, start), chunkSize)
    decreases |data| - start
  {
    if start < |data| {
      var chunks := ChunksFrom(data, chunkSize, start);
      var rest := ChunksFrom(data, chunkSize, start + chunkSize);
      ChunksFromLengths(data, chunkSize, start + chunkSize);
      var chunk := Slice(data, start, start + chunkSize);
      assert chunks == [chunk] + rest;
      if |rest| > 0 {
        assert start + chunkSize < |data|;
        assert chunk == data[start..start + chunkSize];
      }
      forall j | 0 <= j < |chunks|
        ensures 1 <= |chunks[j]| <= chunkSize
        ensures j < |chunks| - 1 ==> |chunks[j]| == chunkSize
      {
        if j > 0 {
          assert chunks[j] == rest[j - 1];
          assert 1 <= |rest[j - 1]| <= chunkSize;
        }
      }
    }
  }

  /** There are ceil(remaining / chunkSize) chunks from `start` on. */
  lemma {:induction false} ChunksFromCount(data: JsString, chunkSize: int, start: nat)
    requires chunkSize > 0
    ensures |ChunksFrom(data, chunkSize, start)| ==
              ((if start < |data| then |data| - start else 0) + chunkSize - 1) / chunkSize
    decreases |data| - start
  {
    if start >= |data| {
      DivUnique(chunkSize - 1, chunkSize, 0, chunkSize - 1);
    } else {
      ChunksFromCount(data, chunkSize, start + chunkSize);
      CeilingStep(|data| - start, chunkSize);
    }
  }

  /** `chunkData` yields ceil(|data| / chunkSize) chunks. */
  lemma ChunkCount(data: JsString, chunkSize: int)
    requires chunkSize > 0
    ensures |ChunkData(data, chunkSize)| == (|data| + chunkSize - 1) / chunkSize
  {
    ChunksFromCount(data, chunkSize, 0);
    if |data| == 0 {
      DivUnique(chunkSize - 1, chunkSize, 0, chunkSize - 1);
    }
  }

  /** The first chunk from `start` is the slice at `start`. */
  lemma ChunksFromHead(data: JsString, chunkSize: int, start: nat)
    requires chunkSize > 0 && 0 < |ChunksFrom(data, chunkSize, start)|
    ensures ChunksFrom(data, chunkSize, start)[0] == Slice(data, start, start + chunkSize)
  {
  }

  /** The later chunks from `start` are the chunks from the next offset. */
  lemma ChunksFromTail(data: JsString, chunkSize: int, start: nat, j: nat)
    requires chunkSize > 0 && 0 < j < |ChunksFrom(data, chunkSize, start)|
    ensures j - 1 < |ChunksFrom(data, chunkSize, start + chunkSize)|
    ensures ChunksFrom(data, chunkSize, start)[j] == ChunksFrom(data, chunkSize, start + chunkSize)[j - 1]
  {
  }

  /** Chunk `j` from `start` is the first chunk `j` strides further on. */
  lemma {:induction false} ChunksFromDrop(data: JsString, chunkSize: int, start: nat, j: nat)
    requires chunkSize > 0 && j < |ChunksFrom(data, chunkSize, start)|
    ensures 0 < |ChunksFrom(data, chunkSize, start + Stride(j, chunkSize))|
    ensures ChunksFrom(data, chunkSize, start)[j] == ChunksFrom(data, chunkSize, start + Stride(j, chunkSize))[0]
    decreases j
  {
    if j > 0 {
      ChunksFromTail(data, chunkSize, start, j);
      ChunksFromDrop(data, chunkSize, start + chunkSize, j - 1);
      assert start + Stride(j, chunkSize) == start + chunkSize + Stride(j - 1, chunkSize);
    }
  }

  /** Chunk `j` starts `j` strides after `start`. */
  lemma ChunksFromAt(data: JsString, chunkSize: int, start: nat, j: nat)
    requires chunkSize > 0 && j < |ChunksFrom(data, chunkSize, start)|
    ensures ChunksFrom(data, chunkSize, start)[j] ==
              Slice(data, start + Stride(j, chunkSize), start + Stride(j, chunkSize) + chunkSize)
  {
    ChunksFromDrop(data, chunkSize, start, j);
    ChunksFromHead(data, chunkSize, start + Stride(j, chunkSize));
  }

  /** `chunks[j]` is `data.slice(j * chunkSize, j * chunkSize + chunkSize)`. */
  lemma ChunkAt(data: JsString, chunkSize: int, j: nat)
    requires chunkSize > 0 && j < |ChunkData(data, chunkSize)|
    ensures ChunkData(data, chunkSize)[j] == Slice(data, j * chunkSize, j * chunkSize + chunkSize)
  {
    var chunks := ChunksFrom(data, chunkSize, 0);
    assert ChunkData(data, chunkSize) == chunks;
    ChunksFromAt(data, chunkSize, 0, j);
    var offset := Stride(j, chunkSize);
    StrideIsProduct(j, chunkSize);
    assert chunks[j] == Slice(data, offset, offset + chunkSize);
  }

  /** `chunkData("hello world", 4)` is `["hell", "o wo", "rld"]`. */
  lemma HelloWorldChunks()
    ensures ChunkData([0x68, 0x65, 0x6C, 0x6C, 0x6F, 0x20, 0x77, 0x6F, 0x72, 0x6C, 0x64], 4)
         == [[0x68, 0x65, 0x6C, 0x6C], [0x6F, 0x20, 0x77, 0x6F], [0x72, 0x6C, 0x64]]
  {
    var data: JsString := [0x68, 0x65, 0x6C, 0x6C, 0x6F, 0x20, 0x77, 0x6F, 0x72, 0x6C, 0x64];
    assert ChunksFrom(data, 4, 8) == [data[8..11]];
    assert ChunksFrom(data, 4, 4) == [data[4..8]] + ChunksFrom(data, 4, 8);
    assert ChunksFrom(data, 4, 0) == [data[0..4]] + ChunksFrom(data, 4, 4);
    assert data[0..4] == [0x68, 0x65, 0x6C, 0x6C];
    assert data[4..8] == [0x6F, 0x20, 0x77, 0x6F];
    assert data[8..11] == [0x72, 0x6C, 0x64];
    assert ChunkData(data, 4) == ChunksFrom(data, 4, 0);
  }

  // ---------------------------------------------------------------------
  // The frame stream

  /** `generateFrames(data, dataType, checksumAlgo, chunkSize)`, as the
      typed frames whose serialisations (`Encode`) it returns. The checksum
      is computed once over the whole payload; START and END both carry it
      and the chunk count, and DATA frame `i` sits at position `i + 1` with
      index `i` and chunk `i` as payload. The digest primitive behind
      SHA-256 is the parameter `digest`. */
  method GenerateFrames(data: JsString, dataType: DataType, checksumAlgo: ChecksumAlgo, chunkSize: int,
                        digest: JsString -> Checksum.Digest)
    returns (frames: seq<Frame>)
    requires chunkSize > 0 || |data| == 0
    ensures var chunks := ChunkData(data, chunkSize);
            var checksum := Checksum.ComputeChecksum(data, checksumAlgo, digest);
            && |frames| == |chunks| + 2
            && frames[0] == Start(dataType, |chunks|, checksum, checksumAlgo)
            && (forall i :: 0 <= i < |chunks| ==> frames[i + 1] == Data(i, chunks[i]))
            && frames[|frames| - 1] == End(checksum, |chunks|)
  {
    var chunks := ChunkData(data, chunkSize);
    var checksum := Checksum.ComputeChecksum(data, checksumAlgo, digest);
    frames := LayOut(dataType, checksum, checksumAlgo, chunks);
  }

  /** The frames `generateFrames` pushes once the chunks and the checksum
      are known: START, then DATA frame `i` carrying chunk `i` for each
      chunk in turn, then END. */
  method LayOut(dataType: DataType, checksum: JsString, checksumAlgo: ChecksumAlgo, chunks: seq<JsString>)
    returns (frames: seq<Frame>)
    ensures |frames| == |chunks| + 2
    ensures frames[0] == Start(dataType, |chunks|, checksum, checksumAlgo)
    ensures forall i :: 0 <= i < |chunks| ==> frames[i + 1] == Data(i, chunks[i])
    ensures frames[|frames| - 1] == End(checksum, |chunks|)
  {
    var totalDataFrames := |chunks|;
    frames := [Start(dataType, totalDataFrames, checksum, checksumAlgo)];
    var i := 0;
    while i < |chunks|
      invariant 0 <= i <= |chunks|
      invariant |frames| == i + 1
      invariant frames[0] == Start(dataType, totalDataFrames, checksum, checksumAlgo)
      invariant forall k :: 0 <= k < i ==> frames[k + 1] == Data(k, chunks[k])
    {
      frames := frames + [Data(i, chunks[i])];
      i := i + 1;
    }
    frames := frames + [End(checksum, totalDataFrames)];
  }

  /** The payloads of the DATA frames of a stream, in order. */
  function Payloads(frames: seq<Frame>): (payloads: seq<JsString>)
    ensures |payloads| == |frames|
  {
    seq(|frames|, j requires 0 <= j < |frames| => if frames[j].Data? then frames[j].payload else [])
  }

  /** What a receiver gets from a stream laid out as `generateFrames` lays
      it out over `data`: the first frame parses as START, the last as END,
      every frame between as DATA, and the DATA payloads joined in order
      give back `data`. */
  lemma StreamParses(frames: seq<Frame>, data: JsString, chunkSize: int)
    requires chunkSize > 0 || |data| == 0
    requires var chunks := ChunkData(data, chunkSize);
             && |frames| == |chunks| + 2
             && frames[0].Start? && frames[|frames| - 1].End?
             && (forall i :: 0 <= i < |chunks| ==> frames[i + 1] == Data(i, chunks[i]))
    ensures ParseFrame(Object(Encode(frames[0]))) == Some(AsStart(Encode(frames[0])))
    ensures ParseFrame(Object(Encode(frames[|frames| - 1]))) == Some(AsEnd(Encode(frames[|frames| - 1])))
    ensures forall j :: 0 < j < |frames| - 1 ==>
              ParseFrame(Object(Encode(frames[j]))) == Some(AsData(Encode(frames[j])))
    ensures Concat(Payloads(frames[1..|frames| - 1])) == data
  {
    var chunks := ChunkData(data, chunkSize);
    ParseEncoded(frames[0]);
    ParseEncoded(frames[|frames| - 1]);
    forall j | 0 < j < |frames| - 1
      ensures ParseFrame(Object(Encode(frames[j]))) == Some(AsData(Encode(frames[j])))
    {
      assert frames[j] == Data(j - 1, chunks[j - 1]);
      ParseEncoded(frames[j]);
    }
    assert Payloads(frames[1..|frames| - 1]) == chunks;
  }

  // ---------------------------------------------------------------------
  // Arithmetic behind the chunk count and the chunk offsets

  /** One more chunk of `k` accounts for one more in the ceiling count. */
  lemma CeilingStep(n: int, k: int)
    requires n > 0 && k > 0
    ensures (n + k - 1) / k == 1 + ((if k < n then n - k else 0) + k - 1) / k
  {
    if n <= k {
      DivUnique(n + k - 1, k, 1, n - 1);
      DivUnique(k - 1, k, 0, k - 1);
    } else {
      var a := n - 1;
      DivUnique(a + k, k, a / k + 1, a % k);
    }
  }

  /** Quotients are unique: `n == k * q + r` with `0 <= r < k` fixes `n / k`. */
  lemma DivUnique(n: int, k: int, q: int, r: int)
    requires k > 0 && n == k * q + r && 0 <= r < k
    ensures n / k == q
  {
    var q', r' := n / k, n % k;
    assert n == k * q' + r' && 0 <= r' < k;
    if q' < q {
      MulStep(k, q', q);
      assert false;
    } else if q' > q {
      MulStep(k, q, q');
      assert false;
    }
  }

  /** Multiplying by a positive `k` keeps steps of at least `k` apart. */
  lemma {:induction false} MulStep(k: int, a: int, b: int)
    requires k > 0 && a < b
    ensures k * a + k <= k * b
    decreases b - a
  {
    if a + 1 < b {
      MulStep(k, a, b - 1);
      assert k * b == k * (b - 1) + k;
    } else {
      assert k * b == k * a + k;
    }
  }

  /** `j * k`, counted out chunk by chunk. */
  function Stride(j: nat, k: nat): nat
  {
    if j == 0 then 0 else Stride(j - 1, k) + k
  }

  lemma {:induction false} StrideIsProduct(j: nat, k: nat)
    ensures Stride(j, k) == j * k
  {
    if j > 0 {
      StrideIsProduct(j - 1, k);
      assert (j - 1) * k + k == j * k;
    }
  }
}
