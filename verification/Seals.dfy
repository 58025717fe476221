/** Every use of the sending key over a session: control messages under a counter, chunks under
    their own nonces, chunks again when they are retransmitted. `send_ctrl` and `encrypt_chunk` of
    p2pshare-core/src/session/coordinator.rs and p2pshare-core/src/session/relay_session.rs. */
module Seals {
  import opened Bytes
  import opened Nonce
  import opened Manifest
  import opened Codec
  import opened Wire

  // ---- What a session seals ----

  /** What a session is asked to do with its key: send a control message, or send or resend a chunk of its
      file. A control message that is too long is refused, but has used up its nonce. */
  datatype Op = Control(plain: seq<Byte>) | SendChunk(index: nat)

  function ControlCount(ops: seq<Op>): nat {
    if ops == [] then 0
    else ControlCount(ops[..|ops| - 1]) + if ops[|ops| - 1].Control? then 1 else 0
  }

  ghost predicate OfFile(s: Source, ops: seq<Op>) {
    forall k :: 0 <= k < |ops| && ops[k].SendChunk? ==> ops[k].index < s.layout.chunkCount
  }

  /** The sealings of one operation, after `n` control messages. */
  function OpUses(s: Source, n: nat, op: Op): seq<Use>
    requires s.WellSized() && (op.SendChunk? ==> op.index < s.layout.chunkCount)
  {
    match op
    case Control(plain) => if |plain| <= MAX_PLAIN then [Use(n, plain)] else []
    case SendChunk(i) => (ChunkInside(s.layout, i); ChunkUses(i, s.Chunk(i), 0))
  }

  function Uses(s: Source, ops: seq<Op>): seq<Use>
    requires s.WellSized() && OfFile(s, ops)
  {
    if ops == [] then []
    else
      var front := ops[..|ops| - 1];
      Uses(s, front) + OpUses(s, ControlCount(front), ops[|ops| - 1])
  }

  /** The plaintext of the control message number `n`. */
  function ControlPlain(ops: seq<Op>, n: nat): seq<Byte>
    requires n < ControlCount(ops)
  {
    var front := ops[..|ops| - 1];
    if n < ControlCount(front) then ControlPlain(front, n) else ops[|ops| - 1].plain
  }

  /** The one plaintext a nonce may be used for in a session. */
  ghost predicate Prescribed(s: Source, ops: seq<Op>, u: Use)
    requires s.WellSized()
  {
    if u.nonce < CHUNK_NONCE_BASE then
      u.nonce < ControlCount(ops) && u.plain == ControlPlain(ops, u.nonce)
    else
      var i, j := (u.nonce - CHUNK_NONCE_BASE) / SUB_SLOTS, (u.nonce - CHUNK_NONCE_BASE) % SUB_SLOTS;
      && i < s.layout.chunkCount && s.layout.Offset(i) <= s.layout.totalSize
      && j * MAX_PLAIN < |s.Chunk(i)| && u.plain == Sub(s.Chunk(i), j)
  }

  // ---- A session ----

  /** The sending half of a session that transfers the file of `source`. `log` are the sealings made
      with its key, `ops` what it was called for. */
  class Session {
    const aead: Aead
    ghost const source: Source
    var sendNonce: nat
    ghost var ops: seq<Op>
    ghost var log: seq<Use>

    /** Every sealing was one of those the operations call for. */
    ghost predicate Valid()
      reads this
    {
      && source.WellSized() && source.aead == aead && OfFile(source, ops)
      && sendNonce == ControlCount(ops) && log == Uses(source, ops)
    }

    constructor (aead: Aead, ghost source: Source)
      requires source.WellSized() && source.aead == aead
      ensures Valid() && this.source == source && sendNonce == 0 && ops == []
    {
      this.aead, this.source, sendNonce, ops, log := aead, source, 0, [], [];
    }

    /** Nonce, length and ciphertext of one control message; nothing if the message is too long to seal. */
    method SendCtrl(plain: seq<Byte>) returns (r: Option<seq<Byte>>)
      requires Valid() && sendNonce + 1 < U64_LIMIT
      modifies this
      ensures Valid() && ops == old(ops) + [Control(plain)] && sendNonce == old(sendNonce) + 1
      ensures r == if |plain| <= 65519 then Some(U64(old(sendNonce)) + Prefixed(aead.seal(old(sendNonce), plain)))
                   else None
    {
      var nonce := sendNonce;
      sendNonce := sendNonce + 1;
      UsesMore(source, ops, Control(plain));
      ops := ops + [Control(plain)];
      if |plain| > MAX_PLAIN {
        assert Uses(source, ops) == log + [];
        return None;
      }
      var c, use := Seal(aead, nonce, plain);
      log := log + [use];
      var bytes := U64(nonce) + U32(|c| % U32_LIMIT) + c;
      assert bytes == U64(nonce) + Prefixed(c);
      r := Some(bytes);
    }

    /** The payload of one of the file's chunks, for the first time or again. */
    method SealChunk(i: nat, p: seq<Byte>) returns (payload: seq<Byte>)
      requires Valid() && i < source.layout.chunkCount && source.layout.Offset(i) <= source.layout.totalSize
      requires p == source.Chunk(i)
      modifies `log, `ops
      ensures Valid() && ops == old(ops) + [SendChunk(i)]
      ensures payload == Encode(aead, i, p)
    {
      var encrypted, uses := EncryptChunk(aead, i, p);
      UsesMore(source, ops, SendChunk(i));
      log, ops := log + uses, ops + [SendChunk(i)];
      payload := encrypted;
    }
  }

  /** One more operation adds its own sealings at the end. */
  lemma UsesMore(s: Source, ops: seq<Op>, op: Op)
    requires s.WellSized() && OfFile(s, ops) && (op.SendChunk? ==> op.index < s.layout.chunkCount)
    ensures OfFile(s, ops + [op])
    ensures Uses(s, ops + [op]) == Uses(s, ops) + OpUses(s, ControlCount(ops), op)
    ensures ControlCount(ops + [op]) == ControlCount(ops) + if op.Control? then 1 else 0
  {
    assert (ops + [op])[..|ops|] == ops;
  }

  // ---- One plaintext for a nonce ----

  /** A sub-message of a chunk under its nonce. */
  lemma SubPrescribed(s: Source, ops: seq<Op>, i: nat, j: nat)
    requires s.WellSized() && i < s.layout.chunkCount && s.layout.Offset(i) <= s.layout.totalSize
    requires j * MAX_PLAIN < |s.Chunk(i)|
    ensures Prescribed(s, ops, Use(ChunkNonce(i, j), Sub(s.Chunk(i), j)))
  {
    ChunkInside(s.layout, i);
    assert j < SUB_SLOTS;
    var n := ChunkNonce(i, j) - CHUNK_NONCE_BASE;
    assert n == i * SUB_SLOTS + j && n / SUB_SLOTS == i && n % SUB_SLOTS == j;
  }

  lemma {:induction false} ChunkUsesPrescribed(s: Source, ops: seq<Op>, i: nat, j: nat, k: nat)
    requires s.WellSized() && i < s.layout.chunkCount && s.layout.Offset(i) <= s.layout.totalSize
    requires k < |ChunkUses(i, s.Chunk(i), j)|
    ensures Prescribed(s, ops, ChunkUses(i, s.Chunk(i), j)[k])
    decreases k
  {
    if k == 0 {
      SubPrescribed(s, ops, i, j);
    } else {
      assert ChunkUses(i, s.Chunk(i), j)[k] == ChunkUses(i, s.Chunk(i), j + 1)[k - 1];
      ChunkUsesPrescribed(s, ops, i, j + 1, k - 1);
    }
  }

  lemma {:induction false} UsesPrescribed(s: Source, ops: seq<Op>, k: nat)
    requires s.WellSized() && OfFile(s, ops) && ControlCount(ops) <= 0x1_0000_0000 && k < |Uses(s, ops)|
    ensures Prescribed(s, ops, Uses(s, ops)[k])
  {
    var front, last := ops[..|ops| - 1], ops[|ops| - 1];
    if k < |Uses(s, front)| {
      UsesPrescribed(s, front, k);
    } else if last.SendChunk? {
      ChunkInside(s.layout, last.index);
      ChunkUsesPrescribed(s, ops, last.index, 0, k - |Uses(s, front)|);
    }
  }

  /** As long as a session sends at most 2^32 control messages, no nonce is ever used for two
      different plaintexts, however often chunks are resent. */
  lemma NonceDeterminesPlaintext(s: Source, ops: seq<Op>, j: nat, k: nat)
    requires s.WellSized() && OfFile(s, ops) && ControlCount(ops) <= 0x1_0000_0000
    requires j < |Uses(s, ops)| && k < |Uses(s, ops)| && Uses(s, ops)[j].nonce == Uses(s, ops)[k].nonce
    ensures Uses(s, ops)[j].plain == Uses(s, ops)[k].plain
  {
    UsesPrescribed(s, ops, j);
    UsesPrescribed(s, ops, k);
    SamePlain(s, ops, Uses(s, ops)[j], Uses(s, ops)[k]);
  }

  lemma SamePlain(s: Source, ops: seq<Op>, u: Use, v: Use)
    requires s.WellSized() && Prescribed(s, ops, u) && Prescribed(s, ops, v) && u.nonce == v.nonce
    ensures u.plain == v.plain
  {
  }

  /** So it is in every session: of two sealings it has made under the same nonce, both were of the same
      plaintext, as long as it has sent at most 2^32 control messages. */
  lemma SessionNonces(session: Session, j: nat, k: nat)
    requires session.Valid() && session.sendNonce <= 0x1_0000_0000
    requires j < |session.log| && k < |session.log| && session.log[j].nonce == session.log[k].nonce
    ensures session.log[j].plain == session.log[k].plain
  {
    NonceDeterminesPlaintext(session.source, session.ops, j, k);
  }

  /** One more control message would be sealed under the nonce of the first sub-message of chunk 0. */
  lemma NextCounterCollides(s: Source, ops: seq<Op>, plain: seq<Byte>)
    requires s.WellSized() && OfFile(s, ops) && ControlCount(ops) == 0x1_0000_0000 && 0 < s.layout.chunkCount
    requires |plain| <= MAX_PLAIN
    ensures s.layout.Offset(0) <= s.layout.totalSize
    ensures OfFile(s, ops + [Control(plain), SendChunk(0)])
    ensures var uses := Uses(s, ops + [Control(plain), SendChunk(0)]);
      && |Uses(s, ops)| + 1 < |uses|
      && uses[|Uses(s, ops)|] == Use(CHUNK_NONCE_BASE, plain)
      && uses[|Uses(s, ops)| + 1] == Use(CHUNK_NONCE_BASE, Sub(s.Chunk(0), 0))
  {
    ChunkInside(s.layout, 0);
    var one := ops + [Control(plain)];
    var two := ops + [Control(plain), SendChunk(0)];
    assert one[..|one| - 1] == ops && two[..|two| - 1] == one;
    assert Uses(s, one) == Uses(s, ops) + [Use(CHUNK_NONCE_BASE, plain)];
    assert ChunkUses(0, s.Chunk(0), 0)[0] == Use(CHUNK_NONCE_BASE, Sub(s.Chunk(0), 0));
  }
}
