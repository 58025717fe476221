/** The chunk codec: a chunk's plaintext is cut into sub-messages that are sealed one by one.
    `encrypt_chunk` and `decrypt_chunk` of p2pshare-core/src/session/coordinator.rs, which
    p2pshare-core/src/session/relay_session.rs repeats word for word. */
module Codec {
  import opened Bytes
  import opened Nonce
  import opened Manifest

  const MAX_PLAIN: nat := 65519
  const MAX_SEALED: nat := 65535
  const TAG: nat := 16

  /** One direction of a Noise transport: sealing and opening under an explicit nonce. */
  datatype Aead = Aead(seal: (nat, seq<Byte>) -> seq<Byte>, open: (nat, seq<Byte>) -> Option<seq<Byte>>) {
    /** Opening inverts sealing, sealing adds a tag, and what opens was sealed from the plaintext it opens to. */
    ghost predicate Lawful() {
      && (forall n: nat, p: seq<Byte> :: |p| <= MAX_PLAIN ==>
            |seal(n, p)| == |p| + TAG && open(n, seal(n, p)) == Some(p))
      && (forall n: nat, c: seq<Byte> :: open(n, c).Some? ==>
            |open(n, c).value| <= MAX_PLAIN && c == seal(n, open(n, c).value))
    }
  }

  datatype CodecError = TooShort | TruncatedLength | TruncatedBody | Unauthentic

  type Decoded = Result<seq<Byte>, CodecError>

  // ---- Sub-messages of a plaintext ----

  function SubCount(n: nat): nat {
    CeilDiv(n, MAX_PLAIN)
  }

  function Sub(p: seq<Byte>, j: nat): (s: seq<Byte>)
    requires j * MAX_PLAIN <= |p|
    ensures |s| <= MAX_PLAIN
  {
    p[j * MAX_PLAIN..Min(j * MAX_PLAIN + MAX_PLAIN, |p|)]
  }

  // ---- Encoding ----

  function SealedSub(a: Aead, i: nat, p: seq<Byte>, j: nat): seq<Byte>
    requires j * MAX_PLAIN <= |p|
  {
    a.seal(ChunkNonce(i, j), Sub(p, j))
  }

  /** A length-prefixed sub-message; the prefix is a 32-bit cast of the length. */
  function Prefixed(c: seq<Byte>): (r: seq<Byte>)
    ensures |r| == 4 + |c|
  {
    U32(|c| % U32_LIMIT) + c
  }

  /** The sub-messages of `p` from number `j` on. */
  function EncodeSubs(a: Aead, i: nat, p: seq<Byte>, j: nat): seq<Byte>
    decreases SubCount(|p|) - j
  {
    if j * MAX_PLAIN >= |p| then []
    else Prefixed(SealedSub(a, i, p, j)) + EncodeSubs(a, i, p, j + 1)
  }

  /** The whole payload; the sub-message count is a 16-bit cast. */
  function Encode(a: Aead, i: nat, p: seq<Byte>): seq<Byte> {
    U16(SubCount(|p|) % U16_LIMIT) + EncodeSubs(a, i, p, 0)
  }

  /** One sealing: a nonce and the plaintext sealed under it. */
  datatype Use = Use(nonce: nat, plain: seq<Byte>)

  /** `write_message`: the one place where something is sealed. It says what under what. */
  method Seal(a: Aead, nonce: nat, plain: seq<Byte>) returns (c: seq<Byte>, ghost use: Use)
    ensures c == a.seal(nonce, plain) && use == Use(nonce, plain)
  {
    c := a.seal(nonce, plain);
    use := Use(nonce, plain);
  }

  /** The sealings of a chunk, from sub-message `j` on. */
  function ChunkUses(i: nat, p: seq<Byte>, j: nat): seq<Use>
    decreases SubCount(|p|) - j
  {
    if j * MAX_PLAIN >= |p| then [] else [Use(ChunkNonce(i, j), Sub(p, j))] + ChunkUses(i, p, j + 1)
  }

  method EncryptChunk(a: Aead, i: nat, p: seq<Byte>) returns (out: seq<Byte>, ghost uses: seq<Use>)
    ensures out == Encode(a, i, p) && uses == ChunkUses(i, p, 0)
  {
    out, uses := U16(SubCount(|p|) % U16_LIMIT), [];
    var j := 0;
    while j * MAX_PLAIN < |p|
      invariant out + EncodeSubs(a, i, p, j) == Encode(a, i, p)
      invariant uses + ChunkUses(i, p, j) == ChunkUses(i, p, 0)
      decreases SubCount(|p|) - j
    {
      var c, use := Seal(a, ChunkNonce(i, j), p[j * MAX_PLAIN..Min(j * MAX_PLAIN + MAX_PLAIN, |p|)]);
      Assoc(uses, [use], ChunkUses(i, p, j + 1));
      uses := uses + [use];
      var before := out;
      out := out + U32(|c| % U32_LIMIT);
      out := out + c;
      Assoc(before, U32(|c| % U32_LIMIT), c);
      Assoc(before, Prefixed(c), EncodeSubs(a, i, p, j + 1));
      j := j + 1;
    }
    assert out + [] == out && uses + [] == uses;
  }

  // ---- Decoding ----

  function Prepend(x: seq<Byte>, r: Decoded): Decoded {
    match r
    case Ok(y) => Ok(x + y)
    case Err(e) => Err(e)
  }

  /** Decode sub-messages `j..count` of payload `c`, starting at position `pos`. */
  function DecodeSubs(a: Aead, i: nat, c: seq<Byte>, j: nat, count: nat, pos: nat): (r: Decoded)
    requires j <= count && pos <= |c|
    decreases count - j
  {
    if j == count then Ok([])
    else if pos + 4 > |c| then Err(TruncatedLength)
    else
      var subLen := FromU32(c[pos..pos + 4]);
      if pos + 4 + subLen > |c| then Err(TruncatedBody)
      else match a.open(ChunkNonce(i, j), c[pos + 4..pos + 4 + subLen])
        case None => Err(Unauthentic)
        case Some(p) => Prepend(p, DecodeSubs(a, i, c, j + 1, count, pos + 4 + subLen))
  }

  function Decode(a: Aead, i: nat, c: seq<Byte>): Decoded {
    if |c| < 2 then Err(TooShort) else DecodeSubs(a, i, c, 0, FromU16(c[..2]), 2)
  }

  method DecryptChunk(a: Aead, i: nat, c: seq<Byte>) returns (r: Decoded)
    ensures r == Decode(a, i, c)
  {
    if |c| < 2 {
      return Err(TooShort);
    }
    var count := FromU16(c[..2]);
    var pos := 2;
    var out: seq<Byte> := [];
    PrependNothing(DecodeSubs(a, i, c, 0, count, pos));
    for j := 0 to count
      invariant 2 <= pos <= |c|
      invariant Decode(a, i, c) == Prepend(out, DecodeSubs(a, i, c, j, count, pos))
    {
      if pos + 4 > |c| {
        return Err(TruncatedLength);
      }
      var subLen := FromU32(c[pos..pos + 4]);
      pos := pos + 4;
      if pos + subLen > |c| {
        return Err(TruncatedBody);
      }
      var plain := a.open(ChunkNonce(i, j), c[pos..pos + subLen]);
      if plain.None? {
        return Err(Unauthentic);
      }
      PrependPrepend(out, plain.value, DecodeSubs(a, i, c, j + 1, count, pos + subLen));
      out := out + plain.value;
      pos := pos + subLen;
    }
    PrependEnd(out);
    r := Ok(out);
  }

  lemma PrependEnd(x: seq<Byte>)
    ensures Prepend(x, Ok([])) == Ok(x)
  {
    assert x + [] == x;
  }

  lemma PrependNothing(r: Decoded)
    ensures Prepend([], r) == r
  {
    if r.Ok? {
      assert [] + r.value == r.value;
    }
  }

  lemma PrependPrepend(x: seq<Byte>, y: seq<Byte>, r: Decoded)
    ensures Prepend(x, Prepend(y, r)) == Prepend(x + y, r)
  {
    if r.Ok? {
      assert x + (y + r.value) == (x + y) + r.value;
    }
  }

  // ---- Round trip ----

  /** A length-prefixed sub-message inside a payload is read back with one decoding step. */
  lemma DecodeStep(a: Aead, i: nat, j: nat, m: nat, c: seq<Byte>, pos: nat, sealed: seq<Byte>, p: seq<Byte>)
    requires j < m && |sealed| < U32_LIMIT && pos + 4 + |sealed| <= |c|
    requires c[pos..pos + 4 + |sealed|] == Prefixed(sealed)
    requires a.open(ChunkNonce(i, j), sealed) == Some(p)
    ensures DecodeSubs(a, i, c, j, m, pos) == Prepend(p, DecodeSubs(a, i, c, j + 1, m, pos + 4 + |sealed|))
  {
    var piece := c[pos..pos + 4 + |sealed|];
    assert c[pos..pos + 4] == piece[..4] == U32(|sealed|);
    assert c[pos + 4..pos + 4 + |sealed|] == piece[4..] == sealed;
  }

  /** The plaintext of sub-messages `j..m`. */
  function Piece(p: seq<Byte>, j: nat, m: nat): seq<Byte>
    requires j <= m
  {
    p[Min(j * MAX_PLAIN, |p|)..Min(m * MAX_PLAIN, |p|)]
  }

  lemma PieceStep(p: seq<Byte>, j: nat, m: nat)
    requires j < m && j * MAX_PLAIN < |p|
    ensures Piece(p, j, m) == Sub(p, j) + Piece(p, j + 1, m)
  {
  }

  /** The sealed sub-messages of `p` have the right length and open to what they were sealed from. */
  ghost predicate SubsOpen(a: Aead, i: nat, p: seq<Byte>) {
    forall j: nat :: j * MAX_PLAIN <= |p| ==>
      && |SealedSub(a, i, p, j)| == |Sub(p, j)| + TAG
      && a.open(ChunkNonce(i, j), SealedSub(a, i, p, j)) == Some(Sub(p, j))
  }

  lemma LawfulSubsOpen(a: Aead, i: nat, p: seq<Byte>)
    requires a.Lawful()
    ensures SubsOpen(a, i, p)
  {
  }

  /** The encoded sub-messages from number `j` on sit in payload `c` at position `pos`. */
  ghost predicate SubsAt(a: Aead, i: nat, p: seq<Byte>, j: nat, c: seq<Byte>, pos: nat) {
    var subs := EncodeSubs(a, i, p, j);
    pos + |subs| <= |c| && c[pos..pos + |subs|] == subs
  }

  lemma SliceSplit(c: seq<Byte>, pos: nat, x: seq<Byte>, y: seq<Byte>)
    requires pos + |x| + |y| <= |c| && c[pos..pos + |x| + |y|] == x + y
    ensures c[pos..pos + |x|] == x && c[pos + |x|..pos + |x| + |y|] == y
  {
    var piece := c[pos..pos + |x| + |y|];
    assert c[pos..pos + |x|] == piece[..|x|] && c[pos + |x|..pos + |x| + |y|] == piece[|x|..];
  }

  lemma SubsAtStep(a: Aead, i: nat, p: seq<Byte>, j: nat, c: seq<Byte>, pos: nat)
    requires j * MAX_PLAIN < |p| && SubsAt(a, i, p, j, c, pos)
    ensures var x := Prefixed(SealedSub(a, i, p, j));
      && |EncodeSubs(a, i, p, j)| == |x| + |EncodeSubs(a, i, p, j + 1)|
      && pos + |x| <= |c| && c[pos..pos + |x|] == x && SubsAt(a, i, p, j + 1, c, pos + |x|)
  {
    var x := Prefixed(SealedSub(a, i, p, j));
    var subs := EncodeSubs(a, i, p, j);
    var rest := EncodeSubs(a, i, p, j + 1);
    assert subs == x + rest;
    SliceSplit(c, pos, x, rest);
  }

  lemma DecodePlacedSub(a: Aead, i: nat, p: seq<Byte>, j: nat, m: nat, c: seq<Byte>, pos: nat)
    requires SubsOpen(a, i, p) && j < m && j * MAX_PLAIN < |p| && SubsAt(a, i, p, j, c, pos)
    ensures var next := pos + 4 + |SealedSub(a, i, p, j)|;
      && next <= |c| && SubsAt(a, i, p, j + 1, c, next)
      && DecodeSubs(a, i, c, j, m, pos) == Prepend(Sub(p, j), DecodeSubs(a, i, c, j + 1, m, next))
  {
    SubsAtStep(a, i, p, j, c, pos);
    DecodeStep(a, i, j, m, c, pos, SealedSub(a, i, p, j), Sub(p, j));
  }

  /** Decoding encoded sub-messages up to number `m` gives back that much of the plaintext. */
  lemma {:induction false} DecodeEncodedSubs(a: Aead, i: nat, p: seq<Byte>, j: nat, m: nat, c: seq<Byte>, pos: nat)
    requires SubsOpen(a, i, p) && j <= m <= SubCount(|p|) && pos <= |c| && SubsAt(a, i, p, j, c, pos)
    ensures DecodeSubs(a, i, c, j, m, pos) == Ok(Piece(p, j, m))
    decreases m - j
  {
    if j < m {
      var next := pos + 4 + |SealedSub(a, i, p, j)|;
      PieceStep(p, j, m);
      DecodePlacedSub(a, i, p, j, m, c, pos);
      DecodeEncodedSubs(a, i, p, j + 1, m, c, next);
      assert DecodeSubs(a, i, c, j, m, pos) == Prepend(Sub(p, j), Ok(Piece(p, j + 1, m)));
    } else {
      assert Piece(p, j, m) == [];
    }
  }

  lemma EncodedSubsPlaced(a: Aead, i: nat, p: seq<Byte>, post: seq<Byte>)
    ensures var c := Encode(a, i, p) + post;
      && |c| == 2 + |EncodeSubs(a, i, p, 0)| + |post|
      && c[..2] == U16(SubCount(|p|) % U16_LIMIT) && SubsAt(a, i, p, 0, c, 2)
  {
    var subs := EncodeSubs(a, i, p, 0);
    var count := U16(SubCount(|p|) % U16_LIMIT);
    assert (count + subs + post)[2..2 + |subs|] == subs;
  }

  /** What decoding an encoded chunk gives, for every plaintext: the sub-messages counted by the
      16-bit field, even when more bytes follow the payload. */
  lemma DecodeEncode(a: Aead, i: nat, p: seq<Byte>, post: seq<Byte>)
    requires a.Lawful()
    ensures Decode(a, i, Encode(a, i, p) + post)
         == Ok(Piece(p, 0, SubCount(|p|) % U16_LIMIT))
  {
    LawfulSubsOpen(a, i, p);
    EncodedSubsPlaced(a, i, p, post);
    DecodeEncodedSubs(a, i, p, 0, SubCount(|p|) % U16_LIMIT, Encode(a, i, p) + post, 2);
  }

  /** A chunk survives the codec exactly when its sub-message count fits the 16-bit field. */
  lemma RoundTrip(a: Aead, i: nat, p: seq<Byte>)
    requires a.Lawful()
    ensures Decode(a, i, Encode(a, i, p)) == Ok(p) <==> |p| <= 65535 * 65519
  {
    DecodeEncode(a, i, p, []);
    assert Encode(a, i, p) + [] == Encode(a, i, p);
    var m := SubCount(|p|);
    if m < U16_LIMIT {
      assert Piece(p, 0, m) == p;
    } else {
      assert |Piece(p, 0, m % U16_LIMIT)| < |p|;
    }
  }

  // ---- Sizes ----

  lemma {:induction false} EncodeSubsLength(a: Aead, i: nat, p: seq<Byte>, j: nat)
    requires a.Lawful() && j <= SubCount(|p|)
    ensures |EncodeSubs(a, i, p, j)| == (|p| - Min(j * MAX_PLAIN, |p|)) + (4 + TAG) * (SubCount(|p|) - j)
    decreases SubCount(|p|) - j
  {
    if j < SubCount(|p|) {
      EncodeSubsLength(a, i, p, j + 1);
    }
  }

  /** An encoded chunk never exceeds the direct receiver's payload limit, whatever the chunk size; for
      the manifest's chunk sizes it fits the 32-bit length field, too. */
  lemma EncodedChunkFits(a: Aead, i: nat, p: seq<Byte>, chunkSize: nat)
    requires a.Lawful() && |p| <= chunkSize
    ensures |Encode(a, i, p)| == 2 + |p| + 20 * ((|p| + 65518) / 65519)
    ensures |Encode(a, i, p)| <= chunkSize + chunkSize / 2048 + 4096 == MaxPayload(chunkSize)
    ensures chunkSize <= 8_388_608 ==> MaxPayload(chunkSize) < 0x1_0000_0000
  {
    EncodeSubsLength(a, i, p, 0);
  }

  function MaxPayload(chunkSize: nat): nat {
    chunkSize + chunkSize / 2048 + 4096
  }

  // ---- Integrity ----

  /** The ciphertexts that the decoder cuts out of a payload and opens, up to the first that does not. */
  function OpenedSubs(a: Aead, i: nat, c: seq<Byte>, j: nat, count: nat, pos: nat): (r: seq<seq<Byte>>)
    requires j <= count && pos <= |c|
    ensures |r| <= count - j
    decreases count - j
  {
    if j == count || pos + 4 > |c| then []
    else
      var next := pos + 4 + FromU32(c[pos..pos + 4]);
      if next > |c| || a.open(ChunkNonce(i, j), c[pos + 4..next]).None? then []
      else [c[pos + 4..next]] + OpenedSubs(a, i, c, j + 1, count, next)
  }

  function Opened(a: Aead, i: nat, c: seq<Byte>): (r: seq<seq<Byte>>)
    ensures |r| < U16_LIMIT
  {
    if |c| < 2 then [] else OpenedSubs(a, i, c, 0, FromU16(c[..2]), 2)
  }

  /** What was cut out and opened, from number `j` on, are the sub-messages of `p` with those numbers. */
  ghost predicate Genuine(a: Aead, i: nat, p: seq<Byte>, cuts: seq<seq<Byte>>, j: nat) {
    forall k :: 0 <= k < |cuts| ==> GenuineSub(a, i, p, cuts[k], j + k)
  }

  ghost predicate GenuineSub(a: Aead, i: nat, p: seq<Byte>, sealed: seq<Byte>, j: nat) {
    j * MAX_PLAIN < |p| && a.open(ChunkNonce(i, j), sealed) == Some(Sub(p, j))
  }

  lemma GenuineTail(a: Aead, i: nat, p: seq<Byte>, first: seq<Byte>, rest: seq<seq<Byte>>, j: nat)
    requires Genuine(a, i, p, [first] + rest, j)
    ensures GenuineSub(a, i, p, first, j) && Genuine(a, i, p, rest, j + 1)
  {
    var cuts := [first] + rest;
    assert GenuineSub(a, i, p, cuts[0], j + 0);
    forall k | 0 <= k < |rest|
      ensures GenuineSub(a, i, p, rest[k], j + 1 + k)
    {
      assert GenuineSub(a, i, p, cuts[k + 1], j + (k + 1));
    }
  }

  lemma {:induction false} DecodedSubsGenuine(a: Aead, i: nat, p: seq<Byte>, c: seq<Byte>, j: nat, count: nat, pos: nat)
    requires j <= count && pos <= |c| && DecodeSubs(a, i, c, j, count, pos).Ok?
    requires Genuine(a, i, p, OpenedSubs(a, i, c, j, count, pos), j)
    ensures j == count || (count - 1) * MAX_PLAIN < |p|
    ensures DecodeSubs(a, i, c, j, count, pos).value == Piece(p, j, count)
    decreases count - j
  {
    if j < count {
      var next := pos + 4 + FromU32(c[pos..pos + 4]);
      GenuineTail(a, i, p, c[pos + 4..next], OpenedSubs(a, i, c, j + 1, count, next), j);
      DecodedSubsGenuine(a, i, p, c, j + 1, count, next);
      PieceStep(p, j, count);
      assert DecodeSubs(a, i, c, j, count, pos) == Prepend(Sub(p, j), Ok(Piece(p, j + 1, count)));
    } else {
      assert Piece(p, j, count) == [];
    }
  }

  /** Whatever a network puts in place of a payload, if the decoder opens nothing in it but the chunk's
      own sub-messages in their places, and it decodes to as many bytes as the chunk has, then it decodes
      to the chunk. */
  lemma DecodedChunkGenuine(a: Aead, i: nat, p: seq<Byte>, c: seq<Byte>)
    requires Genuine(a, i, p, Opened(a, i, c), 0)
    requires Decode(a, i, c).Ok?
    ensures Decode(a, i, c).value <= p
    ensures |Decode(a, i, c).value| == |p| ==> Decode(a, i, c).value == p
  {
    DecodedSubsGenuine(a, i, p, c, 0, FromU16(c[..2]), 2);
  }

  lemma OpenedPlacedSub(a: Aead, i: nat, p: seq<Byte>, j: nat, m: nat, c: seq<Byte>, pos: nat)
    requires SubsOpen(a, i, p) && j < m && j * MAX_PLAIN < |p| && SubsAt(a, i, p, j, c, pos)
    ensures var sealed := SealedSub(a, i, p, j);
      var next := pos + 4 + |sealed|;
      && next <= |c| && SubsAt(a, i, p, j + 1, c, next)
      && OpenedSubs(a, i, c, j, m, pos) == [sealed] + OpenedSubs(a, i, c, j + 1, m, next)
  {
    var sealed := SealedSub(a, i, p, j);
    SubsAtStep(a, i, p, j, c, pos);
    PrefixRead(c, pos, sealed);
  }

  lemma PrefixRead(c: seq<Byte>, pos: nat, sealed: seq<Byte>)
    requires |sealed| < U32_LIMIT && pos + 4 + |sealed| <= |c| && c[pos..pos + 4 + |sealed|] == Prefixed(sealed)
    ensures FromU32(c[pos..pos + 4]) == |sealed| && c[pos + 4..pos + 4 + |sealed|] == sealed
  {
    assert Prefixed(sealed) == U32(|sealed|) + sealed;
    SliceSplit(c, pos, U32(|sealed|), sealed);
  }

  lemma BelowCount(j: nat, n: nat)
    requires j < SubCount(n)
    ensures j * MAX_PLAIN < n
  {
  }

  /** The sealed sub-messages `j..m` of `p`. */
  function SealedSubs(a: Aead, i: nat, p: seq<Byte>, j: nat, m: nat): (r: seq<seq<Byte>>)
    requires j <= m <= SubCount(|p|)
    ensures |r| == m - j
    decreases m - j
  {
    if j == m then []
    else
      BelowCount(j, |p|);
      [SealedSub(a, i, p, j)] + SealedSubs(a, i, p, j + 1, m)
  }

  lemma {:induction false} SealedSubsAt(a: Aead, i: nat, p: seq<Byte>, j: nat, m: nat, k: nat)
    requires j <= k < m <= SubCount(|p|)
    ensures k * MAX_PLAIN < |p| && SealedSubs(a, i, p, j, m)[k - j] == SealedSub(a, i, p, k)
    decreases k - j
  {
    BelowCount(k, |p|);
    if j < k {
      SealedSubsAt(a, i, p, j + 1, m, k);
    }
  }

  /** Of an encoded chunk the decoder opens the sealed sub-messages, each in its place. */
  lemma {:induction false} OpenedEncodedSubs(a: Aead, i: nat, p: seq<Byte>, j: nat, m: nat, c: seq<Byte>, pos: nat)
    requires SubsOpen(a, i, p) && j <= m <= SubCount(|p|) && pos <= |c| && SubsAt(a, i, p, j, c, pos)
    ensures OpenedSubs(a, i, c, j, m, pos) == SealedSubs(a, i, p, j, m)
    decreases m - j
  {
    if j < m {
      BelowCount(j, |p|);
      var sealed := SealedSub(a, i, p, j);
      var next := pos + 4 + |sealed|;
      OpenedPlacedSub(a, i, p, j, m, c, pos);
      OpenedEncodedSubs(a, i, p, j + 1, m, c, next);
      assert SealedSubs(a, i, p, j, m) == [sealed] + SealedSubs(a, i, p, j + 1, m);
    }
  }

  lemma OpenedPlaced(a: Aead, i: nat, p: seq<Byte>, c: seq<Byte>)
    requires SubsOpen(a, i, p) && SubCount(|p|) < U16_LIMIT
    requires |c| >= 2 && c[..2] == U16(SubCount(|p|)) && SubsAt(a, i, p, 0, c, 2)
    ensures Opened(a, i, c) == SealedSubs(a, i, p, 0, SubCount(|p|))
  {
    OpenedEncodedSubs(a, i, p, 0, SubCount(|p|), c, 2);
  }

  lemma OpenedEncoded(a: Aead, i: nat, p: seq<Byte>)
    requires a.Lawful() && SubCount(|p|) < U16_LIMIT
    ensures Opened(a, i, Encode(a, i, p)) == SealedSubs(a, i, p, 0, SubCount(|p|))
  {
    LawfulSubsOpen(a, i, p);
    EncodedSubsPlaced(a, i, p, []);
    assert Encode(a, i, p) + [] == Encode(a, i, p);
    OpenedPlaced(a, i, p, Encode(a, i, p));
  }

  // ---- What arbitrary bytes decode to ----

  /** Sub-messages one after the other, each behind its length. */
  function Joined(cuts: seq<seq<Byte>>): seq<Byte>
    requires Short(cuts)
  {
    if cuts == [] then [] else U32(|cuts[0]|) + cuts[0] + Joined(cuts[1..])
  }

  predicate Short(cuts: seq<seq<Byte>>) {
    forall k :: 0 <= k < |cuts| ==> |cuts[k]| < 0x1_0000_0000
  }

  /** What they open to, in their places from number `j` on, if each of them opens. */
  function Opening(a: Aead, i: nat, cuts: seq<seq<Byte>>, j: nat): Option<seq<Byte>> {
    if cuts == [] then Some([])
    else
      var first, rest := a.open(ChunkNonce(i, j), cuts[0]), Opening(a, i, cuts[1..], j + 1);
      if first.Some? && rest.Some? then Some(first.value + rest.value) else None
  }

  /** Why the bytes `tail` do not begin with a sub-message that opens in place `j`. */
  predicate Faulty(a: Aead, i: nat, j: nat, tail: seq<Byte>, e: CodecError) {
    match e
    case TooShort => false
    case TruncatedLength => |tail| < 4
    case TruncatedBody => |tail| >= 4 && |tail| < 4 + FromU32(tail[..4])
    case Unauthentic =>
      && |tail| >= 4 && |tail| >= 4 + FromU32(tail[..4])
      && a.open(ChunkNonce(i, j), tail[4..4 + FromU32(tail[..4])]) == None
  }

  /** `cuts` and `tail` are how the decoder reads payload `c` from position `pos` on. */
  predicate Parses(a: Aead, i: nat, c: seq<Byte>, j: nat, count: nat, pos: nat, cuts: seq<seq<Byte>>, tail: seq<Byte>)
    requires j <= count && pos <= |c|
  {
    && Short(cuts) && c[pos..] == Joined(cuts) + tail && |cuts| <= count - j && Opening(a, i, cuts, j).Some?
    && match DecodeSubs(a, i, c, j, count, pos)
       case Ok(p) => |cuts| == count - j && Opening(a, i, cuts, j) == Some(p)
       case Err(e) => |cuts| < count - j && Faulty(a, i, j + |cuts|, tail, e)
  }

  lemma FirstCut(c: seq<Byte>, pos: nat, next: nat, rest: seq<Byte>)
    requires pos + 4 <= |c| && next == pos + 4 + FromU32(c[pos..pos + 4]) <= |c| && c[next..] == rest
    ensures c[pos..] == U32(|c[pos + 4..next]|) + c[pos + 4..next] + rest
  {
    WordBack(c[pos..pos + 4]);
    assert c[pos..] == c[pos..pos + 4] + c[pos + 4..next] + c[next..];
  }

  lemma FaultHere(a: Aead, i: nat, c: seq<Byte>, j: nat, count: nat, pos: nat)
    requires j < count && pos <= |c|
    requires pos + 4 <= |c| ==>
      var next := pos + 4 + FromU32(c[pos..pos + 4]);
      next <= |c| ==> a.open(ChunkNonce(i, j), c[pos + 4..next]) == None
    ensures Parses(a, i, c, j, count, pos, [], c[pos..])
  {
    var tail := c[pos..];
    assert [] + tail == tail;
    if pos + 4 <= |c| {
      assert tail[..4] == c[pos..pos + 4];
      var next := pos + 4 + FromU32(c[pos..pos + 4]);
      assert next <= |c| ==> tail[4..next - pos] == c[pos + 4..next];
    }
  }

  lemma OneMoreCut(a: Aead, i: nat, c: seq<Byte>, j: nat, count: nat, pos: nat, next: nat,
                   cuts: seq<seq<Byte>>, tail: seq<Byte>)
    requires j < count && pos + 4 <= |c| && next == pos + 4 + FromU32(c[pos..pos + 4]) <= |c|
    requires a.open(ChunkNonce(i, j), c[pos + 4..next]).Some? && Parses(a, i, c, j + 1, count, next, cuts, tail)
    ensures Parses(a, i, c, j, count, pos, [c[pos + 4..next]] + cuts, tail)
  {
    var cut := c[pos + 4..next];
    var all := [cut] + cuts;
    FirstCut(c, pos, next, Joined(cuts) + tail);
    assert all[1..] == cuts;
    assert Short(all);
    Assoc(U32(|cut|) + cut, Joined(cuts), tail);
  }

  lemma {:induction false} DecodeSubsParses(a: Aead, i: nat, c: seq<Byte>, j: nat, count: nat, pos: nat)
    returns (cuts: seq<seq<Byte>>, tail: seq<Byte>)
    requires j <= count && pos <= |c|
    ensures Parses(a, i, c, j, count, pos, cuts, tail)
    decreases count - j
  {
    cuts, tail := [], c[pos..];
    if j == count {
      assert [] + tail == tail;
    } else if pos + 4 <= |c| && pos + 4 + FromU32(c[pos..pos + 4]) <= |c|
              && a.open(ChunkNonce(i, j), c[pos + 4..pos + 4 + FromU32(c[pos..pos + 4])]).Some? {
      var next := pos + 4 + FromU32(c[pos..pos + 4]);
      cuts, tail := DecodeSubsParses(a, i, c, j + 1, count, next);
      OneMoreCut(a, i, c, j, count, pos, next, cuts, tail);
      cuts := [c[pos + 4..next]] + cuts;
    } else {
      FaultHere(a, i, c, j, count, pos);
    }
  }

  /** Any two bytes or more are a count, then length-prefixed sub-messages, of which those before `tail` open in
      their places; the result is what they open to if they are as many as the count says, and otherwise the
      error that `tail` is. */
  lemma DecodeParses(a: Aead, i: nat, c: seq<Byte>) returns (cuts: seq<seq<Byte>>, tail: seq<Byte>)
    ensures |c| < 2 ==> Decode(a, i, c) == Err(TooShort)
    ensures |c| >= 2 ==>
      && Short(cuts) && c == c[..2] + Joined(cuts) + tail && |cuts| <= FromU16(c[..2]) && Opening(a, i, cuts, 0).Some?
      && match Decode(a, i, c)
         case Ok(p) => |cuts| == FromU16(c[..2]) && Opening(a, i, cuts, 0) == Some(p)
         case Err(e) => |cuts| < FromU16(c[..2]) && Faulty(a, i, |cuts|, tail, e)
  {
    cuts, tail := [], [];
    if |c| >= 2 {
      cuts, tail := DecodeSubsParses(a, i, c, 0, FromU16(c[..2]), 2);
      Assoc(c[..2], Joined(cuts), tail);
      assert c == c[..2] + c[2..];
    }
  }

  lemma CutPlaced(c: seq<Byte>, pos: nat, cuts: seq<seq<Byte>>, tail: seq<Byte>)
    requires cuts != [] && Short(cuts) && pos <= |c| && c[pos..] == Joined(cuts) + tail
    ensures Short(cuts[1..])
    ensures var next := pos + 4 + |cuts[0]|;
      next <= |c| && c[pos..next] == Prefixed(cuts[0]) && c[next..] == Joined(cuts[1..]) + tail
  {
    var cut, rest := cuts[0], Joined(cuts[1..]);
    Assoc(U32(|cut|) + cut, rest, tail);
    assert Prefixed(cut) == U32(|cut|) + cut;
    ReadOn(c, pos, Prefixed(cut), rest + tail);
    SliceInside(c[..pos], Prefixed(cut), rest + tail, 0, 4 + |cut|);
  }

  lemma OneMoreOpens(a: Aead, i: nat, c: seq<Byte>, pos: nat, j: nat, count: nat, cuts: seq<seq<Byte>>)
    requires cuts != [] && |cuts[0]| < U32_LIMIT && j < count && Opening(a, i, cuts, j).Some?
    requires pos + 4 + |cuts[0]| <= |c| && c[pos..pos + 4 + |cuts[0]|] == Prefixed(cuts[0])
    requires DecodeSubs(a, i, c, j + 1, count, pos + 4 + |cuts[0]|) == Ok(Opening(a, i, cuts[1..], j + 1).value)
    ensures DecodeSubs(a, i, c, j, count, pos) == Ok(Opening(a, i, cuts, j).value)
  {
    DecodeStep(a, i, j, count, c, pos, cuts[0], a.open(ChunkNonce(i, j), cuts[0]).value);
  }

  /** The sub-messages are in payload `c` from position `pos` on. */
  predicate CutsAt(c: seq<Byte>, pos: nat, cuts: seq<seq<Byte>>)
    decreases |cuts|
  {
    cuts == []
    || (var next := pos + 4 + |cuts[0]|;
        |cuts[0]| < U32_LIMIT && next <= |c| && c[pos..next] == Prefixed(cuts[0]) && CutsAt(c, next, cuts[1..]))
  }

  lemma {:induction false} JoinedPlaced(c: seq<Byte>, pos: nat, cuts: seq<seq<Byte>>, tail: seq<Byte>)
    requires Short(cuts) && pos <= |c| && c[pos..] == Joined(cuts) + tail
    ensures CutsAt(c, pos, cuts)
    decreases |cuts|
  {
    if cuts != [] {
      CutPlaced(c, pos, cuts, tail);
      JoinedPlaced(c, pos + 4 + |cuts[0]|, cuts[1..], tail);
    }
  }

  lemma {:induction false} PlacedDecode(a: Aead, i: nat, c: seq<Byte>, pos: nat, j: nat, count: nat,
                                        cuts: seq<seq<Byte>>)
    requires CutsAt(c, pos, cuts) && Opening(a, i, cuts, j).Some? && pos <= |c| && count == j + |cuts|
    ensures DecodeSubs(a, i, c, j, count, pos) == Ok(Opening(a, i, cuts, j).value)
    decreases |cuts|
  {
    if cuts != [] {
      PlacedDecode(a, i, c, pos + 4 + |cuts[0]|, j + 1, count, cuts[1..]);
      OneMoreOpens(a, i, c, pos, j, count, cuts);
    }
  }

  /** Conversely, sub-messages that open in their places decode to what they open to, whatever follows. */
  lemma JoinedDecodes(a: Aead, i: nat, cuts: seq<seq<Byte>>, tail: seq<Byte>)
    requires Short(cuts) && |cuts| < 0x1_0000 && Opening(a, i, cuts, 0).Some?
    ensures Decode(a, i, U16(|cuts|) + Joined(cuts) + tail) == Ok(Opening(a, i, cuts, 0).value)
  {
    var c := U16(|cuts|) + Joined(cuts) + tail;
    assert c[..2] == U16(|cuts|) && c[2..] == Joined(cuts) + tail;
    JoinedPlaced(c, 2, cuts, tail);
    PlacedDecode(a, i, c, 2, 0, |cuts|, cuts);
  }

  // ---- The assumptions on the cipher can be met ----

  /** A cipher that tags a message with its nonce sixteen times over: useless as a cipher, but lawful. */
  function ToyTag(n: nat): (t: seq<Byte>)
    ensures |t| == TAG
  {
    seq(TAG, k => n % 0x100)
  }

  function ToyAead(): Aead {
    Aead((n: nat, p: seq<Byte>) => p + ToyTag(n),
         (n: nat, c: seq<Byte>) =>
           if TAG <= |c| <= MAX_SEALED && c[|c| - TAG..] == ToyTag(n) then Some(c[..|c| - TAG]) else None)
  }

  lemma LawfulAeadExists()
    ensures ToyAead().Lawful()
  {
    var a := ToyAead();
    forall n: nat, p: seq<Byte> | |p| <= MAX_PLAIN
      ensures |a.seal(n, p)| == |p| + TAG && a.open(n, a.seal(n, p)) == Some(p)
    {
      assert (p + ToyTag(n))[..|p|] == p && (p + ToyTag(n))[|p|..] == ToyTag(n);
    }
    forall n: nat, c: seq<Byte> | a.open(n, c).Some?
      ensures |a.open(n, c).value| <= MAX_PLAIN && c == a.seal(n, a.open(n, c).value)
    {
      assert c == c[..|c| - TAG] + c[|c| - TAG..];
    }
  }
}
