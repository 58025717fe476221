/** How a file is cut into chunks: p2pshare-core/src/transfer/manifest.rs. */
module Manifest {
  import opened Bytes

  const SMALL_FILE: nat := 5_000_000
  const SMALL_CHUNK: nat := 524_288
  const LARGE_CHUNK: nat := 8_388_608

  function ChunkSizeFor(fileSize: nat): nat {
    if fileSize <= SMALL_FILE then SMALL_CHUNK else LARGE_CHUNK
  }

  function CeilDiv(n: nat, d: nat): nat
    requires d > 0
  {
    (n + d - 1) / d
  }

  /** The 64-bit subtraction is the reason for the precondition: it must not underflow. */
  function ActualChunkSize(index: nat, chunkSize: nat, totalSize: nat): nat
    requires index * chunkSize <= totalSize
  {
    Min(totalSize - index * chunkSize, chunkSize)
  }

  /** The size fields of a manifest. */
  datatype Layout = Layout(totalSize: nat, chunkSize: nat, chunkCount: nat) {
    /** What `build_manifest` yields for every file whose chunk count fits 32 bits. */
    ghost predicate Valid() {
      && 0 < chunkSize <= LARGE_CHUNK
      && totalSize < U64_LIMIT
      && chunkCount < U32_LIMIT
      && chunkCount == CeilDiv(totalSize, chunkSize)
    }

    function Offset(i: nat): nat {
      i * chunkSize
    }

    function Size(i: nat): nat
      requires Offset(i) <= totalSize
    {
      ActualChunkSize(i, chunkSize, totalSize)
    }
  }

  /** Chunk count is cast to 32 bits, dropping the high bits. */
  function BuildLayout(totalSize: nat): Layout {
    var chunkSize := ChunkSizeFor(totalSize);
    Layout(totalSize, chunkSize, CeilDiv(totalSize, chunkSize) % U32_LIMIT)
  }

  // ---- Arithmetic of chunk boundaries ----

  lemma ProductBounds(a: nat, b: nat, c: nat)
    requires a <= b
    ensures a * c <= b * c
  {
  }

  lemma CeilDivBounds(n: nat, d: nat)
    requires d > 0
    ensures CeilDiv(n, d) * d >= n
    ensures n > 0 ==> CeilDiv(n, d) > 0 && (CeilDiv(n, d) - 1) * d < n
    ensures n == 0 ==> CeilDiv(n, d) == 0
  {
    var q, r := (n + d - 1) / d, (n + d - 1) % d;
    assert n + d - 1 == q * d + r;
    assert (q - 1) * d == q * d - d;
    if q > 0 {
      ProductBounds(1, q, d);
    }
  }

  /** A chunk index below the count starts inside the file, so its size never underflows. */
  lemma ChunkInside(l: Layout, i: nat)
    requires l.Valid() && i < l.chunkCount
    ensures l.Offset(i) < l.totalSize
    ensures 0 < l.Size(i) <= l.chunkSize
    ensures l.Offset(i) + l.Size(i) <= l.totalSize
    ensures i + 1 < l.chunkCount ==> l.Size(i) == l.chunkSize
    ensures i + 1 == l.chunkCount ==> l.Offset(i) + l.Size(i) == l.totalSize
  {
    CeilDivBounds(l.totalSize, l.chunkSize);
    ProductBounds(i, l.chunkCount - 1, l.chunkSize);
    assert (i + 1) * l.chunkSize == i * l.chunkSize + l.chunkSize;
    if i + 1 < l.chunkCount {
      ProductBounds(i + 1, l.chunkCount - 1, l.chunkSize);
    }
  }

  /** Two different chunks share no byte. */
  lemma ChunksDisjoint(l: Layout, i: nat, j: nat)
    requires l.Valid() && i < j < l.chunkCount
    ensures l.Offset(i) <= l.totalSize && l.Offset(i) + l.Size(i) <= l.Offset(j)
  {
    ChunkInside(l, i);
    ProductBounds(i + 1, j, l.chunkSize);
    assert (i + 1) * l.chunkSize == i * l.chunkSize + l.chunkSize;
  }

  lemma DivisionBounds(b: nat, d: nat)
    requires d > 0
    ensures b / d * d <= b < b / d * d + d
  {
    assert b == b / d * d + b % d;
  }

  /** Every byte of the file lies in the chunk numbered by its position divided by the chunk size. */
  lemma ChunkOfByte(l: Layout, b: nat)
    requires l.Valid() && b < l.totalSize
    ensures b / l.chunkSize < l.chunkCount
    ensures l.Offset(b / l.chunkSize) <= l.totalSize
    ensures l.Offset(b / l.chunkSize) <= b < l.Offset(b / l.chunkSize) + l.Size(b / l.chunkSize)
  {
    DivisionBounds(b, l.chunkSize);
    CeilDivBounds(l.totalSize, l.chunkSize);
    if l.chunkCount <= b / l.chunkSize {
      ProductBounds(l.chunkCount, b / l.chunkSize, l.chunkSize);
    }
  }

  /** Chunks partition the file: each byte is in exactly one chunk. */
  lemma ChunksPartition(l: Layout, b: nat, i: nat)
    requires l.Valid() && b < l.totalSize && i < l.chunkCount
    ensures l.Offset(i) <= l.totalSize
    ensures l.Offset(i) <= b < l.Offset(i) + l.Size(i) <==> i == b / l.chunkSize
  {
    ChunkInside(l, i);
    ChunkOfByte(l, b);
    var k := b / l.chunkSize;
    if i < k { ChunksDisjoint(l, i, k); }
    if k < i { ChunksDisjoint(l, k, i); }
  }

  /** The manifest of a file covers it exactly when the chunk count survives the 32-bit cast. */
  lemma BuildLayoutCovers(totalSize: nat)
    requires totalSize < U64_LIMIT
    ensures BuildLayout(totalSize).Valid() <==> totalSize <= 0xFFFF_FFFF * 8_388_608
  {
    var size := ChunkSizeFor(totalSize);
    CeilDivBounds(totalSize, size);
    if totalSize <= SMALL_FILE {
      assert CeilDiv(totalSize, size) <= 10;
    } else if totalSize <= (U32_LIMIT - 1) * LARGE_CHUNK {
      assert (CeilDiv(totalSize, size) - 1) * LARGE_CHUNK < (U32_LIMIT - 1) * LARGE_CHUNK;
    }
  }

  /** Beyond that the count keeps its low 32 bits: files that differ by 2^32 * 8 MiB in size get the same. */
  lemma ChunkCountWraps(totalSize: nat)
    requires totalSize > 5_000_000
    ensures BuildLayout(totalSize + 0x1_0000_0000 * 8_388_608).chunkCount == BuildLayout(totalSize).chunkCount
  {
    var n, d := totalSize + 8_388_607, 8_388_608;
    assert (n + U32_LIMIT * d) / d == n / d + U32_LIMIT;
  }

  /** Chunks but the last have 512 KiB if the file has at most five million bytes, and 8 MiB otherwise;
      small files have at most ten, and two or more if one would not do. */
  lemma ChunkSizes(totalSize: nat, i: nat)
    requires BuildLayout(totalSize).Valid() && i + 1 < BuildLayout(totalSize).chunkCount
    ensures BuildLayout(totalSize).totalSize == totalSize && BuildLayout(totalSize).Offset(i) <= totalSize
    ensures BuildLayout(totalSize).Size(i) == if totalSize <= 5_000_000 then 524_288 else 8_388_608
  {
    ChunkInside(BuildLayout(totalSize), i);
  }

  lemma SmallFileChunks(totalSize: nat)
    requires totalSize <= 5_000_000
    ensures BuildLayout(totalSize).chunkCount <= 10
    ensures totalSize > 524_288 <==> BuildLayout(totalSize).chunkCount >= 2
    ensures totalSize > 0 <==> BuildLayout(totalSize).chunkCount >= 1
  {
    CeilDivBounds(totalSize, 524_288);
  }

  // ---- Bytes accounted for by a set of chunks ----

  /** Bytes of the chunks of `done` with an index below `n`. */
  function DoneBytes(l: Layout, done: set<nat>, n: nat): nat
    requires l.Valid() && n <= l.chunkCount
  {
    if n == 0 then 0
    else
      ChunkInside(l, n - 1);
      DoneBytes(l, done, n - 1) + if n - 1 in done then l.Size(n - 1) else 0
  }

  /** The chunk indices below `n`. */
  function Range(n: nat): (s: set<nat>)
    ensures forall i: nat :: i in s <==> i < n
    ensures |s| == n
  {
    if n == 0 then {} else Range(n - 1) + {n - 1}
  }

  lemma {:induction false} DoneBytesInsert(l: Layout, done: set<nat>, i: nat, n: nat)
    requires l.Valid() && n <= l.chunkCount && i < l.chunkCount && i !in done
    ensures l.Offset(i) <= l.totalSize
    ensures DoneBytes(l, done + {i}, n) == DoneBytes(l, done, n) + if i < n then l.Size(i) else 0
  {
    ChunkInside(l, i);
    if n > 0 {
      DoneBytesInsert(l, done, i, n - 1);
    }
  }

  /** How much of the file the chunks below `n` cover. */
  function Covered(l: Layout, n: nat): int {
    Min(l.Offset(n), l.totalSize)
  }

  lemma CoveredStep(l: Layout, n: nat)
    requires l.Valid() && n < l.chunkCount
    ensures l.Offset(n) <= l.totalSize && 0 < l.Size(n)
    ensures Covered(l, n + 1) == Covered(l, n) + l.Size(n)
  {
    ChunkInside(l, n);
    assert l.Offset(n + 1) == l.Offset(n) + l.chunkSize;
  }

  lemma CoveredAll(l: Layout)
    requires l.Valid()
    ensures Covered(l, 0) == 0 && Covered(l, l.chunkCount) == l.totalSize
  {
    CeilDivBounds(l.totalSize, l.chunkSize);
  }

  /** A set of chunks accounts for at most what the chunks below `n` cover, and for all of it
      exactly when it has every one of them. */
  lemma {:induction false} DoneBytesBound(l: Layout, done: set<nat>, n: nat)
    requires l.Valid() && n <= l.chunkCount
    ensures DoneBytes(l, done, n) <= Covered(l, n)
    ensures DoneBytes(l, done, n) == Covered(l, n) <==> Range(n) <= done
  {
    if n == 0 {
      CoveredAll(l);
    } else {
      DoneBytesBound(l, done, n - 1);
      CoveredStep(l, n - 1);
      assert Range(n) == Range(n - 1) + {n - 1};
    }
  }

  /** `DoneBytes` of every chunk is the file size, and no proper subset reaches it. */
  lemma DoneBytesTotal(l: Layout, done: set<nat>)
    requires l.Valid()
    ensures DoneBytes(l, done, l.chunkCount) <= l.totalSize
    ensures DoneBytes(l, done, l.chunkCount) == l.totalSize <==> Range(l.chunkCount) <= done
  {
    CoveredAll(l);
    DoneBytesBound(l, done, l.chunkCount);
  }

  // ---- Chunk contents ----

  /** The bytes of chunk `i` in a file of the manifest's size. */
  function Region(l: Layout, file: seq<Byte>, i: nat): (r: seq<Byte>)
    requires l.Offset(i) <= l.totalSize == |file|
    ensures |r| == l.Size(i)
  {
    file[l.Offset(i)..l.Offset(i) + l.Size(i)]
  }

  /** Seek to the offset of chunk `i` and write. */
  function WriteAt(l: Layout, file: seq<Byte>, i: nat, data: seq<Byte>): (f: seq<Byte>)
    requires l.Offset(i) + |data| <= l.totalSize == |file|
    ensures |f| == |file|
  {
    file[..l.Offset(i)] + data + file[l.Offset(i) + |data|..]
  }

  /** Writing a chunk changes that chunk's bytes and no other chunk's. */
  lemma WriteAtRegions(l: Layout, file: seq<Byte>, i: nat, data: seq<Byte>, j: nat)
    requires l.Valid() && |file| == l.totalSize && i < l.chunkCount && j < l.chunkCount
    requires l.Offset(i) <= l.totalSize && |data| == l.Size(i)
    ensures l.Offset(i) + |data| <= l.totalSize && l.Offset(j) <= l.totalSize
    ensures Region(l, WriteAt(l, file, i, data), j) == if j == i then data else Region(l, file, j)
  {
    ChunkInside(l, i);
    ChunkInside(l, j);
    if i < j { ChunksDisjoint(l, i, j); }
    if j < i { ChunksDisjoint(l, j, i); }
  }

  /** Two files that agree on every chunk are the same file. */
  lemma SameChunksSameFile(l: Layout, f: seq<Byte>, g: seq<Byte>)
    requires l.Valid() && |f| == |g| == l.totalSize
    requires forall i: nat :: i < l.chunkCount && l.Offset(i) <= l.totalSize ==> Region(l, f, i) == Region(l, g, i)
    ensures f == g
  {
    forall b | 0 <= b < |f|
      ensures f[b] == g[b]
    {
      var i := b / l.chunkSize;
      ChunkOfByte(l, b);
      assert Region(l, f, i)[b - l.Offset(i)] == Region(l, g, i)[b - l.Offset(i)];
    }
  }
}
