/** The direct receiver's decoder, which reads a frame piece by piece off the data stream:
    the inner part of the loop of p2pshare-core/src/transfer/receiver.rs, and the frame
    encoder of p2pshare-core/src/transfer/sender.rs it must stay in step with. */
module Streaming {
  import opened Bytes
  import opened Nonce
  import opened Codec
  import opened Wire

  // ---- Frames on the byte stream ----

  /** Index, payload length (a 32-bit cast) and payload. */
  function FrameBytes(f: Frame): seq<Byte> {
    U32(f.index % U32_LIMIT) + U32(|f.payload| % U32_LIMIT) + f.payload
  }

  function StreamBytes(fs: seq<Frame>): seq<Byte> {
    if fs == [] then [] else FrameBytes(fs[0]) + StreamBytes(fs[1..])
  }

  // ---- The streaming decoder ----

  datatype Outcome = Skipped | DecryptFailed | Plain(bytes: seq<Byte>)

  datatype StreamError = EndOfStream | PayloadTooLarge | SubTooLong

  datatype Read = Stopped(why: StreamError) | Got(index: nat, outcome: Outcome, next: nat)

  /** The sub-message loop: `Some` plaintext if every sub-message opened, and where reading stops. */
  datatype SubsRead = Broken(why: StreamError) | Subs(plain: Option<seq<Byte>>, next: nat)

  /** Sub-messages `j..count` of chunk `i` from position `pos`; when not `live` they are only drained. */
  function ReadSubs(a: Aead, i: nat, s: seq<Byte>, j: nat, count: nat, pos: nat, live: bool): SubsRead
    requires j <= count && pos <= |s|
    decreases count - j
  {
    if j == count then Subs(if live then Some([]) else None, pos)
    else if pos + 4 > |s| then Broken(EndOfStream)
    else
      var subLen := FromU32(s[pos..pos + 4]);
      if subLen > MAX_SEALED then Broken(SubTooLong)
      else if pos + 4 + subLen > |s| then Broken(EndOfStream)
      else
        var body := s[pos + 4..pos + 4 + subLen];
        var opening := if live then a.open(ChunkNonce(i, j), body) else None;
        var rest := ReadSubs(a, i, s, j + 1, count, pos + 4 + subLen, opening.Some?);
        match rest
        case Broken(_) => rest
        case Subs(plain, next) =>
          if opening.Some? && plain.Some? then Subs(Some(opening.value + plain.value), next) else Subs(None, next)
  }

  function ReadFrame(a: Aead, maxPayload: nat, s: seq<Byte>, pos: nat, pending: set<nat>): Read
    requires pos <= |s|
  {
    if pos + 8 > |s| then Stopped(EndOfStream)
    else
      var index := FromU32(s[pos..pos + 4]);
      if FromU32(s[pos + 4..pos + 8]) > maxPayload then Stopped(PayloadTooLarge)
      else if pos + 10 > |s| then Stopped(EndOfStream)
      else
        match ReadSubs(a, index, s, 0, FromU16(s[pos + 8..pos + 10]), pos + 10, index in pending)
        case Broken(why) => Stopped(why)
        case Subs(plain, next) =>
          var outcome := if index !in pending then Skipped
                         else if plain.Some? then Plain(plain.value) else DecryptFailed;
          Got(index, outcome, next)
  }

  // ---- Payloads whose structure fills them exactly ----

  /** Where the sub-messages `j..count` of payload `c` end, if they all lie inside it. */
  function Walk(c: seq<Byte>, j: nat, count: nat, pos: nat): Option<nat>
    requires j <= count && pos <= |c|
    decreases count - j
  {
    if j == count then Some(pos)
    else if pos + 4 > |c| then None
    else
      var subLen := FromU32(c[pos..pos + 4]);
      if subLen > MAX_SEALED || pos + 4 + subLen > |c| then None else Walk(c, j + 1, count, pos + 4 + subLen)
  }

  predicate Framed(c: seq<Byte>) {
    |c| >= 2 && Walk(c, 0, FromU16(c[..2]), 2) == Some(|c|)
  }

  /** On a payload whose structure the walk accepts, the streaming decoder reads what the
      whole-buffer decoder reads and stops where the structure ends, also after a failed sub-message. */
  lemma {:induction false} SubsAgree(a: Aead, i: nat, pre: seq<Byte>, c: seq<Byte>, post: seq<Byte>,
                                     j: nat, count: nat, pos: nat, live: bool)
    requires j <= count && pos <= |c| && Walk(c, j, count, pos).Some?
    ensures ReadSubs(a, i, pre + c + post, j, count, |pre| + pos, live)
         == Subs(if live && DecodeSubs(a, i, c, j, count, pos).Ok?
                 then Some(DecodeSubs(a, i, c, j, count, pos).value) else None,
                 |pre| + Walk(c, j, count, pos).value)
    decreases count - j
  {
    if j < count {
      var next := pos + 4 + FromU32(c[pos..pos + 4]);
      SliceInside(pre, c, post, pos, pos + 4);
      SliceInside(pre, c, post, pos + 4, next);
      SubsAgree(a, i, pre, c, post, j + 1, count, next, live && a.open(ChunkNonce(i, j), c[pos + 4..next]).Some?);
    }
  }

  lemma {:induction false} ReadSubsAdvances(a: Aead, i: nat, s: seq<Byte>, j: nat, count: nat, pos: nat, live: bool)
    requires j <= count && pos <= |s|
    ensures var r := ReadSubs(a, i, s, j, count, pos, live); r.Subs? ==> pos <= r.next <= |s|
    decreases count - j
  {
    if j < count && pos + 4 <= |s| {
      var next := pos + 4 + FromU32(s[pos..pos + 4]);
      if next <= |s| {
        ReadSubsAdvances(a, i, s, j + 1, count, next, true);
        ReadSubsAdvances(a, i, s, j + 1, count, next, false);
      }
    }
  }

  /** Conversely, if the streaming decoder stops inside the payload, the walk stops there too. */
  lemma {:induction false} StopInsideIsWalk(a: Aead, i: nat, pre: seq<Byte>, c: seq<Byte>, post: seq<Byte>,
                                            j: nat, count: nat, pos: nat, live: bool)
    requires j <= count && pos <= |c|
    requires ReadSubs(a, i, pre + c + post, j, count, |pre| + pos, live).Subs?
    requires ReadSubs(a, i, pre + c + post, j, count, |pre| + pos, live).next <= |pre| + |c|
    ensures Walk(c, j, count, pos) == Some(ReadSubs(a, i, pre + c + post, j, count, |pre| + pos, live).next - |pre|)
    decreases count - j
  {
    if j < count {
      var s := pre + c + post;
      var at := |pre| + pos;
      var next := at + 4 + FromU32(s[at..at + 4]);
      var live' := live && a.open(ChunkNonce(i, j), s[at + 4..next]).Some?;
      ReadSubsAdvances(a, i, s, j + 1, count, next, live');
      SliceInside(pre, c, post, pos, pos + 4);
      StopInsideIsWalk(a, i, pre, c, post, j + 1, count, next - |pre|, live');
    }
  }

  // ---- One frame ----

  /** The outcome the frame deserves: what the whole-buffer decoder says about its payload. */
  function FrameOutcome(a: Aead, f: Frame, pending: set<nat>): Outcome {
    if f.index !in pending then Skipped
    else match Decode(a, f.index, f.payload)
      case Ok(p) => Plain(p)
      case Err(_) => DecryptFailed
  }

  ghost predicate FitsHeader(f: Frame, maxPayload: nat) {
    f.index < U32_LIMIT && |f.payload| <= maxPayload && |f.payload| < U32_LIMIT
  }

  lemma FrameHeader(f: Frame, pre: seq<Byte>, post: seq<Byte>)
    requires f.index < U32_LIMIT && |f.payload| < U32_LIMIT
    ensures var s := pre + FrameBytes(f) + post;
      && s[|pre|..|pre| + 4] == U32(f.index) && s[|pre| + 4..|pre| + 8] == U32(|f.payload|)
      && s == pre + U32(f.index) + U32(|f.payload|) + f.payload + post
  {
    NoTruncation(f.index);
    NoTruncation(|f.payload|);
    Headed(pre, U32(f.index), U32(|f.payload|), f.payload, post);
  }

  lemma NoTruncation(n: nat)
    requires n < U32_LIMIT
    ensures n % U32_LIMIT == n && U32(n % U32_LIMIT) == U32(n)
  {
  }

  lemma Headed(pre: seq<Byte>, x: seq<Byte>, y: seq<Byte>, c: seq<Byte>, post: seq<Byte>)
    ensures var s := pre + (x + y + c) + post;
      && s[|pre|..|pre| + |x|] == x && s[|pre| + |x|..|pre| + |x| + |y|] == y
      && s == pre + x + y + c + post
  {
    SliceInside(pre, x + y + c, post, 0, |x|);
    SliceInside(pre, x + y + c, post, |x|, |x| + |y|);
  }

  /** On a frame whose payload's structure fills it, the streaming decoder consumes exactly the
      frame and agrees with the whole-buffer decoder. */
  lemma FrameAgrees(a: Aead, maxPayload: nat, f: Frame, pre: seq<Byte>, post: seq<Byte>, pending: set<nat>)
    requires FitsHeader(f, maxPayload) && Framed(f.payload)
    ensures ReadFrame(a, maxPayload, pre + FrameBytes(f) + post, |pre|, pending)
         == Got(f.index, FrameOutcome(a, f, pending), |pre| + |FrameBytes(f)|)
  {
    FrameHeader(f, pre, post);
    var pre' := pre + U32(f.index) + U32(|f.payload|);
    SliceInside(pre', f.payload, post, 0, 2);
    SubsAgree(a, f.index, pre', f.payload, post, 0, FromU16(f.payload[..2]), 2, f.index in pending);
  }

  /** Whatever the bytes are, wherever the decoder starts: what it takes for a frame has the outcome
      the whole-buffer decoder has on the bytes read after the header. The payload length in the header
      plays no part. */
  lemma ReadIsFrame(a: Aead, maxPayload: nat, s: seq<Byte>, pos: nat, pending: set<nat>)
    requires pos <= |s| && ReadFrame(a, maxPayload, s, pos, pending).Got?
    ensures var r := ReadFrame(a, maxPayload, s, pos, pending);
      && pos + 10 <= r.next <= |s|
      && r.index == FromU32(s[pos..pos + 4]) && FromU32(s[pos + 4..pos + 8]) <= maxPayload
      && Framed(s[pos + 8..r.next])
      && r.outcome == FrameOutcome(a, Frame(r.index, s[pos + 8..r.next]), pending)
  {
    var r := ReadFrame(a, maxPayload, s, pos, pending);
    var count, live := FromU16(s[pos + 8..pos + 10]), r.index in pending;
    ReadSubsAdvances(a, r.index, s, 0, count, pos + 10, live);
    var pre, c, post := s[..pos + 8], s[pos + 8..r.next], s[r.next..];
    assert s == pre + c + post;
    assert c[..2] == s[pos + 8..pos + 10];
    StopInsideIsWalk(a, r.index, pre, c, post, 0, count, 2, live);
    SubsAgree(a, r.index, pre, c, post, 0, count, 2, live);
  }

  lemma InStepIsFramed(a: Aead, maxPayload: nat, f: Frame, pre: seq<Byte>, post: seq<Byte>, pending: set<nat>)
    requires FitsHeader(f, maxPayload)
    requires var r := ReadFrame(a, maxPayload, pre + FrameBytes(f) + post, |pre|, pending);
      r.Got? && r.next == |pre| + |FrameBytes(f)|
    ensures Framed(f.payload)
  {
    FrameHeader(f, pre, post);
    var s, pre' := pre + FrameBytes(f) + post, pre + U32(f.index) + U32(|f.payload|);
    ReadIsFrame(a, maxPayload, s, |pre|, pending);
    SliceInside(pre', f.payload, post, 0, |f.payload|);
  }

  /** Whatever the payload holds, the streaming decoder ends at the end of the frame exactly when
      the payload's structure fills it. The whole-buffer decoder has no such condition. */
  lemma InStepExactlyWhenFramed(a: Aead, maxPayload: nat, f: Frame, pre: seq<Byte>, post: seq<Byte>, pending: set<nat>)
    requires FitsHeader(f, maxPayload)
    ensures (var r := ReadFrame(a, maxPayload, pre + FrameBytes(f) + post, |pre|, pending);
             r.Got? && r.next == |pre| + |FrameBytes(f)|)
       <==> Framed(f.payload)
  {
    var r := ReadFrame(a, maxPayload, pre + FrameBytes(f) + post, |pre|, pending);
    if Framed(f.payload) {
      FrameAgrees(a, maxPayload, f, pre, post, pending);
    } else if r.Got? && r.next == |pre| + |FrameBytes(f)| {
      InStepIsFramed(a, maxPayload, f, pre, post, pending);
    }
  }

  // ---- Why reading stops ----

  /** The bytes `tail` break off a sub-message, or begin with the length of one that is too long. */
  predicate StopsAt(tail: seq<Byte>, why: StreamError) {
    match why
    case PayloadTooLarge => false
    case EndOfStream => |tail| < 4 || (FromU32(tail[..4]) <= 65535 && |tail| < 4 + FromU32(tail[..4]))
    case SubTooLong => |tail| >= 4 && FromU32(tail[..4]) > 65535
  }

  /** Sub-messages before the place where reading stops. */
  predicate Fitting(cuts: seq<seq<Byte>>) {
    forall k :: 0 <= k < |cuts| ==> |cuts[k]| <= 65535
  }

  lemma StopHere(a: Aead, i: nat, s: seq<Byte>, j: nat, count: nat, pos: nat, live: bool, tail: seq<Byte>)
    requires j < count && pos <= |s| && tail == s[pos..]
    requires pos + 4 <= |s| ==>
      FromU32(s[pos..pos + 4]) > MAX_SEALED || pos + 4 + FromU32(s[pos..pos + 4]) > |s|
    ensures var r := ReadSubs(a, i, s, j, count, pos, live); r.Broken? && StopsAt(tail, r.why)
  {
    if pos + 4 <= |s| {
      assert tail[..4] == s[pos..pos + 4];
    }
  }

  lemma MoreCuts(s: seq<Byte>, pos: nat, next: nat, cuts: seq<seq<Byte>>, tail: seq<Byte>)
    requires pos + 4 <= |s| && next == pos + 4 + FromU32(s[pos..pos + 4]) <= |s| && next - pos <= 4 + 65535
    requires Fitting(cuts) && s[next..] == Joined(cuts) + tail
    ensures var all := [s[pos + 4..next]] + cuts; Fitting(all) && s[pos..] == Joined(all) + tail
  {
    var cut := s[pos + 4..next];
    var all := [cut] + cuts;
    FirstCut(s, pos, next, Joined(cuts) + tail);
    assert all[1..] == cuts;
    Assoc(U32(|cut|) + cut, Joined(cuts), tail);
  }

  lemma {:induction false} SubsStop(a: Aead, i: nat, s: seq<Byte>, j: nat, count: nat, pos: nat, live: bool)
    returns (cuts: seq<seq<Byte>>, tail: seq<Byte>)
    requires j <= count && pos <= |s| && ReadSubs(a, i, s, j, count, pos, live).Broken?
    ensures Fitting(cuts) && |cuts| < count - j && s[pos..] == Joined(cuts) + tail
    ensures StopsAt(tail, ReadSubs(a, i, s, j, count, pos, live).why)
    decreases count - j
  {
    cuts, tail := [], s[pos..];
    assert [] + tail == tail;
    if pos + 4 <= |s| && FromU32(s[pos..pos + 4]) <= MAX_SEALED && pos + 4 + FromU32(s[pos..pos + 4]) <= |s| {
      var next := pos + 4 + FromU32(s[pos..pos + 4]);
      var live' := live && a.open(ChunkNonce(i, j), s[pos + 4..next]).Some?;
      cuts, tail := SubsStop(a, i, s, j + 1, count, next, live');
      MoreCuts(s, pos, next, cuts, tail);
      cuts := [s[pos + 4..next]] + cuts;
    } else {
      StopHere(a, i, s, j, count, pos, live, tail);
    }
  }

  /** Reading a frame stops if the stream ends within the header or the count, if the header announces more
      than the limit, or where the sub-messages break off or announce more than 65535 bytes; nothing else
      stops it, neither a sub-message that does not open nor a wrong length in the header. */
  lemma ReadStops(a: Aead, maxPayload: nat, s: seq<Byte>, pos: nat, pending: set<nat>)
    returns (cuts: seq<seq<Byte>>, tail: seq<Byte>)
    requires pos <= |s| && ReadFrame(a, maxPayload, s, pos, pending).Stopped?
    ensures var why := ReadFrame(a, maxPayload, s, pos, pending).why;
      if |s| < pos + 8 then why == EndOfStream
      else if FromU32(s[pos + 4..pos + 8]) > maxPayload then why == PayloadTooLarge
      else if |s| < pos + 10 then why == EndOfStream
      else
        && Fitting(cuts) && |cuts| < FromU16(s[pos + 8..pos + 10]) && s[pos + 10..] == Joined(cuts) + tail
        && StopsAt(tail, why)
  {
    cuts, tail := [], [];
    if pos + 10 <= |s| && FromU32(s[pos + 4..pos + 8]) <= maxPayload {
      var index, count := FromU32(s[pos..pos + 4]), FromU16(s[pos + 8..pos + 10]);
      cuts, tail := SubsStop(a, index, s, 0, count, pos + 10, index in pending);
    }
  }

  // ---- The sender's frames qualify ----

  lemma WalkStep(j: nat, m: nat, c: seq<Byte>, pos: nat, sealed: seq<Byte>)
    requires j < m && |sealed| <= MAX_SEALED && pos + 4 + |sealed| <= |c|
    requires c[pos..pos + 4 + |sealed|] == Prefixed(sealed)
    ensures Walk(c, j, m, pos) == Walk(c, j + 1, m, pos + 4 + |sealed|)
  {
    var piece := c[pos..pos + 4 + |sealed|];
    assert c[pos..pos + 4] == piece[..4] == U32(|sealed|);
  }

  lemma {:induction false} EncodedSubsWalk(a: Aead, i: nat, p: seq<Byte>, j: nat, c: seq<Byte>, pos: nat)
    requires SubsOpen(a, i, p) && j <= SubCount(|p|) && pos <= |c| && SubsAt(a, i, p, j, c, pos)
    ensures Walk(c, j, SubCount(|p|), pos) == Some(pos + |EncodeSubs(a, i, p, j)|)
    decreases SubCount(|p|) - j
  {
    if j < SubCount(|p|) {
      var sealed := SealedSub(a, i, p, j);
      SubsAtStep(a, i, p, j, c, pos);
      WalkStep(j, SubCount(|p|), c, pos, sealed);
      EncodedSubsWalk(a, i, p, j + 1, c, pos + 4 + |sealed|);
    }
  }

  lemma AppendNothing(c: seq<Byte>)
    ensures c + [] == c
  {
  }

  lemma PlacedFramed(a: Aead, i: nat, p: seq<Byte>, c: seq<Byte>)
    requires SubsOpen(a, i, p) && SubCount(|p|) < U16_LIMIT
    requires |c| == 2 + |EncodeSubs(a, i, p, 0)| && c[..2] == U16(SubCount(|p|)) && SubsAt(a, i, p, 0, c, 2)
    ensures Framed(c)
  {
    EncodedSubsWalk(a, i, p, 0, c, 2);
  }

  lemma EncodedFramed(a: Aead, i: nat, p: seq<Byte>)
    requires SubsOpen(a, i, p) && SubCount(|p|) < U16_LIMIT
    ensures Framed(Encode(a, i, p))
  {
    EncodedSubsPlaced(a, i, p, []);
    AppendNothing(Encode(a, i, p));
    PlacedFramed(a, i, p, Encode(a, i, p));
  }

  /** Frames built by the sender, sealed sub-messages and all, keep the direct receiver in step. */
  lemma HonestFrameFits(s: Source, i: nat)
    requires s.Valid() && i < s.layout.chunkCount
    ensures s.layout.Offset(i) <= s.layout.totalSize
    ensures FitsHeader(s.Honest(i), MaxPayload(s.layout.chunkSize)) && Framed(s.Honest(i).payload)
  {
    Manifest.ChunkInside(s.layout, i);
    EncodedChunkFits(s.aead, i, s.Chunk(i), s.layout.chunkSize);
    LawfulSubsOpen(s.aead, i, s.Chunk(i));
    EncodedFramed(s.aead, i, s.Chunk(i));
  }

  // ---- The loop over the stream, with the file's progress counter ----

  /** `read_exact` on the data stream. */
  class ByteStream {
    const data: seq<Byte>
    var pos: nat

    ghost predicate Valid()
      reads this
    {
      pos <= |data|
    }

    constructor (data: seq<Byte>)
      ensures Valid() && this.data == data && pos == 0
    {
      this.data := data;
      pos := 0;
    }

    method ReadExact(n: nat) returns (r: Option<seq<Byte>>)
      requires Valid()
      modifies this
      ensures Valid()
      ensures old(pos) + n <= |data| ==> pos == old(pos) + n && r == Some(data[old(pos)..old(pos) + n])
      ensures old(pos) + n > |data| ==> pos == old(pos) && r == None
    {
      if pos + n > |data| {
        return None;
      }
      r := Some(data[pos..pos + n]);
      pos := pos + n;
    }
  }

  /** The byte counters behind the progress bar: p2pshare-core/src/transfer/progress.rs. */
  class Counter {
    var done: nat
    var total: nat

    method Reset(total: nat)
      modifies this
      ensures this.total == total && done == 0
    {
      this.total := total;
      done := 0;
    }

    method Advance(bytes: nat)
      modifies `done
      ensures done == old(done) + bytes
    {
      done := done + bytes;
    }

    method SetDone(bytes: nat)
      modifies `done
      ensures done == bytes
    {
      done := bytes;
    }

    /** The subtraction saturates at zero. */
    method Retract(bytes: nat)
      modifies `done
      ensures done == if bytes <= old(done) then old(done) - bytes else 0
    {
      done := if bytes <= done then done - bytes else 0;
    }
  }

  /** What the loop has in hand once it is at sub-message `j`, expressed as the rest of `ReadSubs`. */
  function Continue(plain: seq<Byte>, failed: bool, rest: SubsRead): SubsRead {
    match rest
    case Broken(_) => rest
    case Subs(tail, next) => if failed || tail.None? then Subs(None, next) else Subs(Some(plain + tail.value), next)
  }

  /** Read and open the sub-messages of one frame. The counter moves with every opened sub-message
      and falls back when one fails, so that on return it has moved by the whole plaintext or not at
      all; falling back never saturates. */
  method ReceiveSubs(a: Aead, index: nat, stream: ByteStream, count: nat, isPending: bool, progress: Counter)
    returns (r: SubsRead)
    requires stream.Valid()
    modifies stream, progress`done
    ensures stream.Valid()
    ensures r == ReadSubs(a, index, stream.data, 0, count, old(stream.pos), isPending)
    ensures r.Subs? ==> stream.pos == r.next
    ensures r.Subs? ==> progress.done == old(progress.done) + if r.plain.Some? then |r.plain.value| else 0
  {
    var plaintext: seq<Byte> := [];
    var failed := false;
    var advanced := 0;
    ghost var whole := ReadSubs(a, index, stream.data, 0, count, stream.pos, isPending);
    ContinueNothing(whole);
    for j := 0 to count
      invariant stream.Valid()
      invariant advanced == if failed then 0 else |plaintext|
      invariant !isPending ==> plaintext == []
      invariant progress.done == old(progress.done) + advanced
      invariant whole == Continue(plaintext, failed,
                                  ReadSubs(a, index, stream.data, j, count, stream.pos, isPending && !failed))
    {
      var subLenBuf := stream.ReadExact(4);
      if subLenBuf.None? {
        return Broken(EndOfStream);
      }
      var subLen := FromU32(subLenBuf.value);
      if subLen > MAX_SEALED {
        return Broken(SubTooLong);
      }
      var body := stream.ReadExact(subLen);
      if body.None? {
        return Broken(EndOfStream);
      }
      if isPending && !failed {
        var opening := a.open(ChunkNonce(index, j), body.value);
        ContinueContinue(plaintext, if opening.Some? then opening.value else [],
                         ReadSubs(a, index, stream.data, j + 1, count, stream.pos, opening.Some?));
        if opening.Some? {
          progress.Advance(|opening.value|);
          advanced := advanced + |opening.value|;
          plaintext := plaintext + opening.value;
        } else {
          progress.Retract(advanced);
          advanced := 0;
          failed := true;
        }
      }
    }
    AppendNothing(plaintext);
    r := Subs(if isPending && !failed then Some(plaintext) else None, stream.pos);
  }

  /** Read one frame off the stream, up to and including its sub-messages. */
  method ReceiveFrame(a: Aead, maxPayload: nat, stream: ByteStream, pending: set<nat>, progress: Counter)
    returns (r: Read)
    requires stream.Valid()
    modifies stream, progress`done
    ensures stream.Valid()
    ensures r == ReadFrame(a, maxPayload, stream.data, old(stream.pos), pending)
    ensures r.Got? ==> stream.pos == r.next
    ensures r.Got? ==> progress.done == old(progress.done) + if r.outcome.Plain? then |r.outcome.bytes| else 0
  {
    var idxBuf := stream.ReadExact(4);
    if idxBuf.None? {
      return Stopped(EndOfStream);
    }
    var lenBuf := stream.ReadExact(4);
    if lenBuf.None? {
      return Stopped(EndOfStream);
    }
    if FromU32(lenBuf.value) > maxPayload {
      return Stopped(PayloadTooLarge);
    }
    var countBuf := stream.ReadExact(2);
    if countBuf.None? {
      return Stopped(EndOfStream);
    }
    var index := FromU32(idxBuf.value);
    var subs := ReceiveSubs(a, index, stream, FromU16(countBuf.value), index in pending, progress);
    match subs {
      case Broken(why) =>
        r := Stopped(why);
      case Subs(plain, next) =>
        var outcome := if index !in pending then Skipped
                       else if plain.Some? then Plain(plain.value) else DecryptFailed;
        r := Got(index, outcome, next);
    }
  }

  lemma ContinueNothing(r: SubsRead)
    ensures Continue([], false, r) == r
  {
    if r.Subs? && r.plain.Some? {
      assert [] + r.plain.value == r.plain.value;
    }
  }

  lemma ContinueContinue(x: seq<Byte>, y: seq<Byte>, r: SubsRead)
    ensures Continue(x, false, Continue(y, false, r)) == Continue(x + y, false, r)
  {
    if r.Subs? && r.plain.Some? {
      assert x + (y + r.plain.value) == (x + y) + r.plain.value;
    }
  }
}
