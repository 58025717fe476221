/** Noise nonces of control messages and chunk sub-messages: p2pshare-core/src/session/mod.rs. */
module Nonce {
  import opened Bytes

  const CHUNK_NONCE_BASE: nat := 0x1_0000_0000
  const SUB_SLOTS: nat := 0x1_0000

  function ChunkNonce(chunkIndex: nat, subIndex: nat): nat {
    CHUNK_NONCE_BASE + chunkIndex * SUB_SLOTS + subIndex
  }

  /** The shift and the additions never overflow 64 bits. */
  lemma ChunkNonceFits(i: nat, j: nat)
    requires i < 0x1_0000_0000 && j < 0x1_0000_0000
    ensures 0x1_0000_0000 <= ChunkNonce(i, j) < 0x1_0000_0000_0000_0000
  {
  }

  /** With fewer than 65536 sub-messages a chunk, two sub-messages share a nonce exactly if they have the
      same number in the same chunk. */
  lemma ChunkNonceInjective(i: nat, j: nat, i': nat, j': nat)
    requires j < 65536 && j' < 65536
    ensures ChunkNonce(i, j) == ChunkNonce(i', j') <==> i == i' && j == j'
  {
  }

  /** A counter value is no chunk's nonce exactly while it is below 2^32, or beyond every chunk nonce. */
  lemma CounterAvoidsChunks(k: nat)
    ensures (forall i: nat, j: nat :: i < 0x1_0000_0000 && j < 65536 ==> k != ChunkNonce(i, j))
       <==> k < 0x1_0000_0000 || ChunkNonce(U32_LIMIT, 0) <= k
  {
    if CHUNK_NONCE_BASE <= k < ChunkNonce(U32_LIMIT, 0) {
      var i, j := (k - CHUNK_NONCE_BASE) / SUB_SLOTS, (k - CHUNK_NONCE_BASE) % SUB_SLOTS;
      assert k == ChunkNonce(i, j) && i < U32_LIMIT && j < SUB_SLOTS;
    }
  }

  /** Chunk nonces begin at 2^32, chunks lie 65536 nonces apart, and a chunk's sub-messages follow each other. */
  lemma ChunkNonceSpacing(i: nat, j: nat)
    ensures ChunkNonce(0, 0) == 0x1_0000_0000
    ensures ChunkNonce(i + 1, j) == ChunkNonce(i, j) + 65536 && ChunkNonce(i, j + 1) == ChunkNonce(i, j) + 1
  {
  }
}
