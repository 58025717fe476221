/** The senders' work on the file and the data stream: the read-ahead send loop of
    p2pshare-core/src/transfer/sender.rs and `send_one_chunk` of p2pshare-core/src/transfer/relay_sender.rs. */
module SendLoop {
  import opened Bytes
  import opened Manifest
  import opened Codec
  import opened Wire
  import opened Streaming
  import opened RelayWire
  import opened Seals

  /** An open file with a cursor, which every read moves. */
  class SourceFile {
    const data: seq<Byte>
    var cursor: nat

    constructor (data: seq<Byte>)
      ensures this.data == data && cursor == 0
    {
      this.data, cursor := data, 0;
    }

    method Seek(offset: nat)
      modifies this
      ensures cursor == offset
    {
      cursor := offset;
    }

    method ReadExact(n: nat) returns (r: Option<seq<Byte>>)
      modifies this
      ensures old(cursor) + n <= |data| ==> r == Some(data[old(cursor)..old(cursor) + n]) && cursor == old(cursor) + n
      ensures old(cursor) + n > |data| ==> r == None
    {
      if cursor + n > |data| {
        return None;
      }
      r := Some(data[cursor..cursor + n]);
      cursor := cursor + n;
    }
  }

  /** What has been written to the data stream, one entry for each `write_all`. */
  class Outbox {
    var writes: seq<seq<Byte>>

    constructor ()
      ensures writes == []
    {
      writes := [];
    }

    method WriteAll(b: seq<Byte>)
      modifies this
      ensures writes == old(writes) + [b]
    {
      writes := writes + [b];
    }
  }

  ghost predicate ReadsFrom(s: Source, file: SourceFile) {
    s.WellSized() && file.data == s.file
  }

  /** The session seals this source's chunks. */
  ghost predicate SealsFor(s: Source, session: Session)
    reads session
  {
    session.Valid() && session.source == s
  }

  /** Seek to the chunk and read it: where the cursor was does not matter. */
  method ReadChunk(s: Source, file: SourceFile, i: nat) returns (r: seq<Byte>)
    requires ReadsFrom(s, file) && i < s.layout.chunkCount
    modifies file
    ensures s.layout.Offset(i) <= s.layout.totalSize && r == s.Chunk(i)
  {
    ChunkInside(s.layout, i);
    file.Seek(s.layout.Offset(i));
    var read := file.ReadExact(s.layout.Size(i));
    r := read.value;
  }

  method EncodeChunkFrame(s: Source, session: Session, i: nat, plaintext: seq<Byte>) returns (frame: seq<Byte>)
    requires SealsFor(s, session) && i < s.layout.chunkCount
    requires s.layout.Offset(i) <= s.layout.totalSize && plaintext == s.Chunk(i)
    modifies session
    ensures SealsFor(s, session) && session.ops == old(session.ops) + [SendChunk(i)]
    ensures frame == FrameOf(s, i)
  {
    var encrypted := session.SealChunk(i, plaintext);
    frame := U32(i % U32_LIMIT);
    frame := frame + U32(|encrypted| % U32_LIMIT);
    frame := frame + encrypted;
  }

  function FrameOf(s: Source, i: nat): seq<Byte>
    requires s.WellSized() && i < s.layout.chunkCount
  {
    ChunkInside(s.layout, i);
    FrameBytes(s.Honest(i))
  }

  method Retransmit(s: Source, session: Session, file: SourceFile, out: Outbox, i: nat)
    requires ReadsFrom(s, file) && SealsFor(s, session) && i < s.layout.chunkCount
    modifies session, file, out
    ensures SealsFor(s, session) && session.ops == old(session.ops) + [SendChunk(i)]
    ensures out.writes == old(out.writes) + [FrameOf(s, i)]
  {
    var plaintext := ReadChunk(s, file, i);
    var frame := EncodeChunkFrame(s, session, i, plaintext);
    out.WriteAll(frame);
  }

  // ---- What a send loop without read-ahead would send ----

  ghost predicate Chunks(s: Source, indices: seq<nat>) {
    forall k :: 0 <= k < |indices| ==> indices[k] < s.layout.chunkCount
  }

  /** The frames of these chunks, in this order. */
  function Sent(s: Source, indices: seq<nat>): seq<seq<Byte>>
    requires s.WellSized() && Chunks(s, indices)
  {
    seq(|indices|, k requires 0 <= k < |indices| => FrameOf(s, indices[k]))
  }

  /** The sealing operations for these chunks. */
  function ChunkOps(indices: seq<nat>): seq<Op> {
    seq(|indices|, k requires 0 <= k < |indices| => SendChunk(indices[k]))
  }

  lemma ChunkOpsConcat(x: seq<nat>, y: seq<nat>)
    ensures ChunkOps(x + y) == ChunkOps(x) + ChunkOps(y)
  {
  }

  /** The order of chunks: each of the initial pass, followed by the retransmissions found pending
      right after it; then the retransmissions asked for later. */
  function Order(todo: seq<nat>, nacks: seq<seq<nat>>, late: seq<nat>): seq<nat>
    requires |nacks| == |todo|
  {
    if todo == [] then late else [todo[0]] + nacks[0] + Order(todo[1..], nacks[1..], late)
  }

  lemma ServedMore(s: Source, nacks: seq<nat>, k: nat, ops: seq<Op>, writes: seq<seq<Byte>>)
    requires s.WellSized() && Chunks(s, nacks) && k < |nacks|
    ensures ops + ChunkOps(nacks)[..k + 1] == ops + ChunkOps(nacks)[..k] + [SendChunk(nacks[k])]
    ensures writes + Sent(s, nacks)[..k + 1] == writes + Sent(s, nacks)[..k] + [FrameOf(s, nacks[k])]
  {
    PrefixMore(ChunkOps(nacks), k, ops);
    PrefixMore(Sent(s, nacks), k, writes);
  }

  lemma PrefixMore<T>(x: seq<T>, k: nat, w: seq<T>)
    requires k < |x|
    ensures w + x[..k + 1] == w + x[..k] + [x[k]]
  {
    assert x[..k + 1] == x[..k] + [x[k]];
  }

  /** Serve the NACKs in `nacks` one by one. */
  method RetransmitAll(s: Source, session: Session, file: SourceFile, out: Outbox, nacks: seq<nat>)
    requires ReadsFrom(s, file) && SealsFor(s, session) && Chunks(s, nacks)
    modifies session, file, out
    ensures SealsFor(s, session) && session.ops == old(session.ops) + ChunkOps(nacks)
    ensures out.writes == old(out.writes) + Sent(s, nacks)
  {
    var k := 0;
    while k < |nacks|
      invariant k <= |nacks|
      invariant SealsFor(s, session)
      invariant session.ops == old(session.ops) + ChunkOps(nacks)[..k]
      invariant out.writes == old(out.writes) + Sent(s, nacks)[..k]
    {
      ServedMore(s, nacks, k, old(session.ops), old(out.writes));
      Retransmit(s, session, file, out, nacks[k]);
      k := k + 1;
    }
  }

  /** Chunks the loop sends in its turn `k`. */
  function Turn(todo: seq<nat>, nacks: seq<seq<nat>>, k: nat): seq<nat>
    requires k < |todo| == |nacks|
  {
    [todo[k]] + nacks[k]
  }

  function Turns(todo: seq<nat>, nacks: seq<seq<nat>>, k: nat): seq<nat>
    requires k <= |todo| == |nacks|
  {
    if k == 0 then [] else Turns(todo, nacks, k - 1) + Turn(todo, nacks, k - 1)
  }

  lemma {:induction false} TurnsAreOrder(todo: seq<nat>, nacks: seq<seq<nat>>, late: seq<nat>, k: nat)
    requires k <= |todo| == |nacks|
    ensures Turns(todo, nacks, k) + Order(todo[k..], nacks[k..], late) == Order(todo, nacks, late)
  {
    if k == 0 {
      assert todo[0..] == todo && nacks[0..] == nacks;
    } else {
      TurnsAreOrder(todo, nacks, late, k - 1);
      assert todo[k - 1..][1..] == todo[k..] && nacks[k - 1..][1..] == nacks[k..];
      var turn, rest := Turn(todo, nacks, k - 1), Order(todo[k..], nacks[k..], late);
      assert Order(todo[k - 1..], nacks[k - 1..], late) == turn + rest;
      Assoc(Turns(todo, nacks, k - 1), turn, rest);
    }
  }

  ghost predicate AllChunks(s: Source, nacks: seq<seq<nat>>) {
    forall k :: 0 <= k < |nacks| ==> Chunks(s, nacks[k])
  }

  lemma {:induction false} OrderChunks(s: Source, todo: seq<nat>, nacks: seq<seq<nat>>, late: seq<nat>)
    requires |nacks| == |todo| && Chunks(s, todo) && AllChunks(s, nacks) && Chunks(s, late)
    ensures Chunks(s, Order(todo, nacks, late))
  {
    if todo != [] {
      assert Chunks(s, nacks[0]);
      assert forall k :: 0 <= k < |nacks[1..]| ==> nacks[1..][k] == nacks[k + 1];
      OrderChunks(s, todo[1..], nacks[1..], late);
    }
  }

  lemma {:induction false} TurnsChunks(s: Source, todo: seq<nat>, nacks: seq<seq<nat>>, k: nat)
    requires k <= |nacks| == |todo| && Chunks(s, todo) && AllChunks(s, nacks)
    ensures Chunks(s, Turns(todo, nacks, k))
  {
    if k > 0 {
      TurnsChunks(s, todo, nacks, k - 1);
      assert Chunks(s, nacks[k - 1]);
    }
  }

  lemma TurnSent(s: Source, todo: seq<nat>, nacks: seq<seq<nat>>, k: nat, w: seq<seq<Byte>>)
    requires s.WellSized() && k < |todo| == |nacks| && Chunks(s, todo) && AllChunks(s, nacks)
    requires Chunks(s, Turns(todo, nacks, k)) && Chunks(s, Turns(todo, nacks, k + 1)) && Chunks(s, nacks[k])
    ensures w + Sent(s, Turns(todo, nacks, k + 1))
         == w + Sent(s, Turns(todo, nacks, k)) + [FrameOf(s, todo[k])] + Sent(s, nacks[k])
  {
    assert Sent(s, Turns(todo, nacks, k + 1))
        == Sent(s, Turns(todo, nacks, k)) + ([FrameOf(s, todo[k])] + Sent(s, nacks[k]));
  }

  lemma TurnOps(todo: seq<nat>, nacks: seq<seq<nat>>, k: nat, w: seq<Op>)
    requires k < |todo| == |nacks|
    ensures w + ChunkOps(Turns(todo, nacks, k + 1))
         == w + ChunkOps(Turns(todo, nacks, k)) + [SendChunk(todo[k])] + ChunkOps(nacks[k])
  {
    var x, y, z := ChunkOps(Turns(todo, nacks, k)), [SendChunk(todo[k])], ChunkOps(nacks[k]);
    ChunkOpsConcat(Turns(todo, nacks, k), Turn(todo, nacks, k));
    ChunkOpsConcat([todo[k]], nacks[k]);
    assert ChunkOps([todo[k]]) == y;
    Assoc(w, x, y + z);
    Assoc(w + x, y, z);
  }

  lemma LastOps(x: seq<nat>, late: seq<nat>, w: seq<Op>)
    ensures w + ChunkOps(x + late) == w + ChunkOps(x) + ChunkOps(late)
  {
    ChunkOpsConcat(x, late);
    Assoc(w, ChunkOps(x), ChunkOps(late));
  }

  lemma LastSent(s: Source, x: seq<nat>, late: seq<nat>, w: seq<seq<Byte>>)
    requires s.WellSized() && Chunks(s, x) && Chunks(s, late)
    ensures w + Sent(s, x + late) == w + Sent(s, x) + Sent(s, late)
  {
    assert Sent(s, x + late) == Sent(s, x) + Sent(s, late);
    Assoc(w, Sent(s, x), Sent(s, late));
  }

  /** One turn: the frame of `todo[k]` from the chunk read ahead, the next chunk read meanwhile, then
      the retransmissions found on the NACK channel. */
  method SendTurn(s: Source, session: Session, file: SourceFile, out: Outbox, todo: seq<nat>, k: nat,
                  plaintext: seq<Byte>, found: seq<nat>)
    returns (buf: Option<seq<Byte>>)
    requires ReadsFrom(s, file) && SealsFor(s, session) && k < |todo| && Chunks(s, todo) && Chunks(s, found)
    requires s.layout.Offset(todo[k]) <= s.layout.totalSize && plaintext == s.Chunk(todo[k])
    modifies session, file, out
    ensures SealsFor(s, session) && session.ops == old(session.ops) + [SendChunk(todo[k])] + ChunkOps(found)
    ensures out.writes == old(out.writes) + [FrameOf(s, todo[k])] + Sent(s, found)
    ensures k + 1 < |todo| ==> s.layout.Offset(todo[k + 1]) <= s.layout.totalSize && buf == Some(s.Chunk(todo[k + 1]))
  {
    buf := None;
    var frame := EncodeChunkFrame(s, session, todo[k], plaintext);
    out.WriteAll(frame);
    if k + 1 < |todo| {
      var read := ReadChunk(s, file, todo[k + 1]);
      buf := Some(read);
    }
    RetransmitAll(s, session, file, out, found);
  }

  /** The direct send loop. While one frame is written the next chunk is read into `buf`; retransmissions
      between turns move the file's cursor. It writes what the loop without read-ahead would write,
      seals those chunks and nothing else, and `buf` is never empty when its content is taken. `nacks[k]`
      is what the NACK channel holds after frame `k`, `late` what arrives on it until it is closed. */
  method SendLoop(s: Source, session: Session, file: SourceFile, out: Outbox,
                  todo: seq<nat>, nacks: seq<seq<nat>>, late: seq<nat>)
    requires ReadsFrom(s, file) && SealsFor(s, session) && |nacks| == |todo|
    requires Chunks(s, todo) && AllChunks(s, nacks) && Chunks(s, late)
    modifies session, file, out
    ensures Chunks(s, Order(todo, nacks, late))
    ensures SealsFor(s, session) && session.ops == old(session.ops) + ChunkOps(Order(todo, nacks, late))
    ensures out.writes == old(out.writes) + Sent(s, Order(todo, nacks, late))
  {
    OrderChunks(s, todo, nacks, late);
    var buf: Option<seq<Byte>> := None;
    if todo != [] {
      var first := ReadChunk(s, file, todo[0]);
      buf := Some(first);
    }
    var k := 0;
    while k < |todo|
      invariant k <= |todo| && Chunks(s, Turns(todo, nacks, k))
      invariant k < |todo| ==> s.layout.Offset(todo[k]) <= s.layout.totalSize && buf == Some(s.Chunk(todo[k]))
      invariant SealsFor(s, session) && session.ops == old(session.ops) + ChunkOps(Turns(todo, nacks, k))
      invariant out.writes == old(out.writes) + Sent(s, Turns(todo, nacks, k))
    {
      TurnsChunks(s, todo, nacks, k + 1);
      assert Chunks(s, nacks[k]);
      TurnSent(s, todo, nacks, k, old(out.writes));
      TurnOps(todo, nacks, k, old(session.ops));
      buf := SendTurn(s, session, file, out, todo, k, buf.value, nacks[k]);
      k := k + 1;
    }
    RetransmitAll(s, session, file, out, late);
    LastOps(Turns(todo, nacks, k), late, old(session.ops));
    LastSent(s, Turns(todo, nacks, k), late, old(out.writes));
    TurnsAreOrder(todo, nacks, late, k);
    assert Order(todo[k..], nacks[k..], late) == late;
  }

  /** The relay sender's unit of work, used by both of its loops. */
  method SendOneChunk(s: Source, session: Session, file: SourceFile, out: Outbox, i: nat)
    requires ReadsFrom(s, file) && SealsFor(s, session) && i < s.layout.chunkCount
    modifies session, file, out
    ensures SealsFor(s, session) && session.ops == old(session.ops) + [SendChunk(i)]
    ensures s.layout.Offset(i) <= s.layout.totalSize
    ensures exists header, payload :: out.writes == old(out.writes) + [header, payload]
                                   && header + payload == ItemBytes(s.aead, ChunkItem(s.Honest(i)))
  {
    var plaintext := ReadChunk(s, file, i);
    var encrypted := session.SealChunk(i, plaintext);
    var header := [CHUNK_TYPE] + U32(i % U32_LIMIT) + U32(|encrypted| % U32_LIMIT);
    out.WriteAll(header);
    out.WriteAll(encrypted);
    assert header + encrypted
        == [CHUNK_TYPE] + (U32(i % U32_LIMIT) + U32(|encrypted| % U32_LIMIT) + encrypted);
    assert out.writes == old(out.writes) + [header, encrypted];
  }

  // ---- What the receiver reads ----

  function Flat(writes: seq<seq<Byte>>): seq<Byte> {
    if writes == [] then [] else writes[0] + Flat(writes[1..])
  }

  function Frames(s: Source, indices: seq<nat>): seq<Frame>
    requires s.WellSized() && Chunks(s, indices)
  {
    seq(|indices|, k requires 0 <= k < |indices| => (ChunkInside(s.layout, indices[k]); s.Honest(indices[k])))
  }

  /** On the wire the frames follow one another the way the receive loop expects them. */
  lemma {:induction false} SentIsStream(s: Source, indices: seq<nat>)
    requires s.WellSized() && Chunks(s, indices)
    ensures Flat(Sent(s, indices)) == StreamBytes(Frames(s, indices))
  {
    if indices != [] {
      assert Sent(s, indices)[1..] == Sent(s, indices[1..]);
      assert Frames(s, indices)[1..] == Frames(s, indices[1..]);
      SentIsStream(s, indices[1..]);
    }
  }
}
