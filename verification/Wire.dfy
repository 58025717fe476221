/** Chunk frames and control messages, and what a receiver may conclude from a frame. */
module Wire {
  import opened Bytes
  import opened Nonce
  import opened Manifest
  import opened Codec

  /** A chunk frame; the header (index and length) is trusted, the payload is what the network delivers. */
  datatype Frame = Frame(index: nat, payload: seq<Byte>)

  /** The control messages a receiver sends once the transfer runs. */
  datatype Ctrl = Progress(bytes: nat) | ChunkNack(index: nat) | Complete

  /** The check both receivers make: the plaintext if the payload decodes to the chunk's size. */
  function Verdict(a: Aead, l: Layout, f: Frame): Option<seq<Byte>>
    requires l.Offset(f.index) <= l.totalSize
  {
    match Decode(a, f.index, f.payload)
    case Ok(p) => if |p| == l.Size(f.index) then Some(p) else None
    case Err(_) => None
  }

  /** The file being sent, the way it is cut, and the cipher of the sender-to-receiver direction. */
  datatype Source = Source(aead: Aead, layout: Layout, file: seq<Byte>) {
    ghost predicate WellSized() {
      layout.Valid() && |file| == layout.totalSize
    }

    ghost predicate Valid() {
      aead.Lawful() && WellSized()
    }

    function Chunk(i: nat): seq<Byte>
      requires layout.Offset(i) <= layout.totalSize == |file|
    {
      Region(layout, file, i)
    }

    /** The frame the sender builds for chunk `i`, first time or retransmitted. */
    function Honest(i: nat): Frame
      requires layout.Offset(i) <= layout.totalSize == |file|
    {
      Frame(i, Encode(aead, i, Chunk(i)))
    }

    /** `c` is the ciphertext this sender produced under nonce `n` for a sub-message of a chunk. */
    ghost predicate SentUnder(n: nat, c: seq<Byte>)
      requires Valid()
    {
      exists i: nat, j: nat :: SentSub(i, j, n, c)
    }

    ghost predicate SentSub(i: nat, j: nat, n: nat, c: seq<Byte>)
      requires Valid()
    {
      && i < layout.chunkCount
      && layout.Offset(i) <= layout.totalSize
      && j * MAX_PLAIN < |Chunk(i)|
      && n == ChunkNonce(i, j)
      && c == SealedSub(aead, i, Chunk(i), j)
    }

    /** No forgery: whatever the decoder cuts out of payload `c` of chunk `i` and opens, this sender sealed
        under the nonce it was opened with. The payload is otherwise arbitrary. */
    ghost predicate Unforged(i: nat, c: seq<Byte>)
      requires Valid()
    {
      var cuts := Opened(aead, i, c);
      forall k :: 0 <= k < |cuts| ==> SentUnder(ChunkNonce(i, k), cuts[k])
    }

    /** File `g` has this source's bytes at chunk `i`. */
    ghost predicate Has(g: seq<Byte>, i: nat)
      requires Valid() && i < layout.chunkCount && |g| == layout.totalSize
    {
      ChunkInside(layout, i);
      Region(layout, g, i) == Chunk(i)
    }

    /** A frame that carries either its chunk or something the receiver rejects. */
    ghost predicate Trusted(f: Frame)
      requires Valid()
    {
      && f.index < layout.chunkCount
      && layout.Offset(f.index) <= layout.totalSize
      && (Verdict(aead, layout, f).Some? ==> Verdict(aead, layout, f).value == Chunk(f.index))
    }
  }

  /** Freedom from forgery is enough: nonces keep sub-messages of other chunks and other positions from
      passing for this one. */
  lemma UnforgedGenuine(s: Source, i: nat, c: seq<Byte>)
    requires s.Valid() && i < s.layout.chunkCount && s.layout.Offset(i) <= s.layout.totalSize && s.Unforged(i, c)
    ensures Genuine(s.aead, i, s.Chunk(i), Opened(s.aead, i, c), 0)
  {
    var cuts := Opened(s.aead, i, c);
    LawfulSubsOpen(s.aead, i, s.Chunk(i));
    forall k | 0 <= k < |cuts|
      ensures GenuineSub(s.aead, i, s.Chunk(i), cuts[k], 0 + k)
    {
      var n := ChunkNonce(i, k);
      assert s.SentUnder(n, cuts[k]);
      var i': nat, j': nat :| s.SentSub(i', j', n, cuts[k]);
      ChunkInside(s.layout, i');
      ChunkNonceInjective(i, k, i', j');
    }
  }

  /** Whatever payload the network delivers, if it is not forged then it carries its chunk or is rejected. */
  lemma UnforgedTrusted(s: Source, i: nat, c: seq<Byte>)
    requires s.Valid() && i < s.layout.chunkCount && s.Unforged(i, c)
    ensures s.Trusted(Frame(i, c))
  {
    ChunkInside(s.layout, i);
    UnforgedGenuine(s, i, c);
    if Decode(s.aead, i, c).Ok? {
      DecodedChunkGenuine(s.aead, i, s.Chunk(i), c);
    }
  }

  /** For every lawful cipher, the sender's own payloads are unforged. */
  lemma HonestUnforged(s: Source, i: nat)
    requires s.Valid() && i < s.layout.chunkCount
    ensures s.layout.Offset(i) <= s.layout.totalSize && s.Unforged(i, s.Honest(i).payload)
  {
    ChunkInside(s.layout, i);
    var cuts := Opened(s.aead, i, s.Honest(i).payload);
    forall k: nat | k < |cuts|
      ensures s.SentUnder(ChunkNonce(i, k), cuts[k])
    {
      OpenedEncoded(s.aead, i, s.Chunk(i));
      SealedSubsAt(s.aead, i, s.Chunk(i), 0, SubCount(|s.Chunk(i)|), k);
      assert s.SentSub(i, k, ChunkNonce(i, k), cuts[k]);
    }
  }

  /** And so is a payload of which nothing opens, such as one of zeros, which every receiver rejects. */
  lemma BlankRejected(s: Source, i: nat, n: nat)
    requires s.Valid() && i < s.layout.chunkCount && n >= 2
    ensures s.Unforged(i, seq(n, _ => 0)) && s.layout.Offset(i) <= s.layout.totalSize
    ensures Verdict(s.aead, s.layout, Frame(i, seq(n, _ => 0))) == None
  {
    var c: seq<Byte> := seq(n, _ => 0);
    ChunkInside(s.layout, i);
    assert FromU16(c[..2]) == 0;
    assert DecodeSubs(s.aead, i, c, 0, 0, 2) == Ok([]);
  }

  /** The sender's own frames are accepted. */
  lemma HonestAccepted(s: Source, i: nat)
    requires s.Valid() && i < s.layout.chunkCount
    ensures s.layout.Offset(i) <= s.layout.totalSize
    ensures Verdict(s.aead, s.layout, s.Honest(i)) == Some(s.Chunk(i))
    ensures s.Trusted(s.Honest(i))
  {
    ChunkInside(s.layout, i);
    RoundTrip(s.aead, i, s.Chunk(i));
  }

  // ---- What is accepted ----

  /** If sub-messages `j..` of a payload decode to the rest of `p`, and only genuine ones open, then the
      encoding of that rest is there. */
  lemma {:induction false} DecodedIsEncoded(a: Aead, i: nat, p: seq<Byte>, c: seq<Byte>, j: nat, pos: nat)
    requires a.Lawful() && j <= SubCount(|p|) && pos <= |c| && DecodeSubs(a, i, c, j, SubCount(|p|), pos).Ok?
    requires Genuine(a, i, p, OpenedSubs(a, i, c, j, SubCount(|p|), pos), j)
    ensures SubsAt(a, i, p, j, c, pos)
    decreases SubCount(|p|) - j
  {
    if j < SubCount(|p|) {
      var next := pos + 4 + FromU32(c[pos..pos + 4]);
      var cut := c[pos + 4..next];
      GenuineTail(a, i, p, cut, OpenedSubs(a, i, c, j + 1, SubCount(|p|), next), j);
      DecodedIsEncoded(a, i, p, c, j + 1, next);
      BelowCount(j, |p|);
      CutIsSealed(a, i, p, c, j, pos, next);
    }
  }

  lemma CutJoins(c: seq<Byte>, pos: nat, next: nat, cut: seq<Byte>, rest: seq<Byte>)
    requires pos + 4 + |cut| == next && next + |rest| <= |c| && |cut| < U32_LIMIT && c[pos..pos + 4] == U32(|cut|)
    requires c[pos + 4..next] == cut && c[next..next + |rest|] == rest
    ensures c[pos..next + |rest|] == Prefixed(cut) + rest
  {
    assert c[pos..next + |rest|] == c[pos..pos + 4] + c[pos + 4..next] + c[next..next + |rest|];
  }

  lemma CutIsSealed(a: Aead, i: nat, p: seq<Byte>, c: seq<Byte>, j: nat, pos: nat, next: nat)
    requires a.Lawful() && j * MAX_PLAIN < |p| && pos + 4 <= |c| && next == pos + 4 + FromU32(c[pos..pos + 4]) <= |c|
    requires GenuineSub(a, i, p, c[pos + 4..next], j) && SubsAt(a, i, p, j + 1, c, next)
    ensures SubsAt(a, i, p, j, c, pos)
  {
    var cut, rest := c[pos + 4..next], EncodeSubs(a, i, p, j + 1);
    WordBack(c[pos..pos + 4]);
    assert cut == SealedSub(a, i, p, j);
    CutJoins(c, pos, next, cut, rest);
  }

  lemma PlacedIsPrefix(a: Aead, i: nat, p: seq<Byte>, c: seq<Byte>)
    requires |c| >= 2 && c[..2] == U16(SubCount(|p|) % U16_LIMIT) && SubsAt(a, i, p, 0, c, 2)
    ensures Encode(a, i, p) <= c
  {
    var subs := EncodeSubs(a, i, p, 0);
    assert c == c[..2] + c[2..2 + |subs|] + c[2 + |subs|..];
  }

  lemma WholeCount(n: nat, count: nat)
    requires (count - 1) * MAX_PLAIN < n <= count * MAX_PLAIN
    ensures count == SubCount(n)
  {
  }

  lemma GenuineCount(a: Aead, i: nat, p: seq<Byte>, c: seq<Byte>)
    requires p != [] && Genuine(a, i, p, Opened(a, i, c), 0)
    requires Decode(a, i, c).Ok? && |Decode(a, i, c).value| == |p|
    ensures FromU16(c[..2]) == SubCount(|p|)
  {
    var count := FromU16(c[..2]);
    DecodedSubsGenuine(a, i, p, c, 0, count, 2);
    assert |Piece(p, 0, count)| == Min(count * MAX_PLAIN, |p|);
    WholeCount(|p|, count);
  }

  lemma GenuineSubsAt(a: Aead, i: nat, p: seq<Byte>, c: seq<Byte>)
    requires a.Lawful() && |c| >= 2 && FromU16(c[..2]) == SubCount(|p|)
    requires Genuine(a, i, p, Opened(a, i, c), 0) && Decode(a, i, c).Ok?
    ensures SubsAt(a, i, p, 0, c, 2)
  {
    assert Decode(a, i, c) == DecodeSubs(a, i, c, 0, SubCount(|p|), 2);
    assert Opened(a, i, c) == OpenedSubs(a, i, c, 0, SubCount(|p|), 2);
    DecodedIsEncoded(a, i, p, c, 0, 2);
  }

  lemma GenuineIsEncoded(a: Aead, i: nat, p: seq<Byte>, c: seq<Byte>)
    requires a.Lawful() && p != [] && Genuine(a, i, p, Opened(a, i, c), 0)
    requires Decode(a, i, c).Ok? && |Decode(a, i, c).value| == |p|
    ensures Encode(a, i, p) <= c
  {
    GenuineCount(a, i, p, c);
    GenuineSubsAt(a, i, p, c);
    HalfBack(c[..2]);
    assert SubCount(|p|) % U16_LIMIT == FromU16(c[..2]);
    PlacedIsPrefix(a, i, p, c);
  }

  /** Of all unforged payloads, the receivers accept the sender's own, with or without bytes after it, and
      no other. */
  lemma AcceptedExactlyIf(s: Source, i: nat, c: seq<Byte>)
    requires s.Valid() && i < s.layout.chunkCount && s.Unforged(i, c)
    ensures s.layout.Offset(i) <= s.layout.totalSize
    ensures Verdict(s.aead, s.layout, Frame(i, c)) != None <==> s.Honest(i).payload <= c
  {
    ChunkInside(s.layout, i);
    var p := s.Chunk(i);
    if s.Honest(i).payload <= c {
      var post := c[|s.Honest(i).payload|..];
      assert c == s.Honest(i).payload + post;
      DecodeEncode(s.aead, i, p, post);
      RoundTrip(s.aead, i, p);
      DecodeEncode(s.aead, i, p, []);
      assert s.Honest(i).payload + [] == s.Honest(i).payload;
    }
    if Verdict(s.aead, s.layout, Frame(i, c)) != None {
      UnforgedGenuine(s, i, c);
      GenuineIsEncoded(s.aead, i, p, c);
    }
  }
}
