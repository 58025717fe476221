/** Messages on the relay's single TCP stream: p2pshare-core/src/session/relay_session.rs. */
module RelayWire {
  import opened Bytes
  import opened Codec
  import opened Wire
  import opened Streaming

  const CTRL_TYPE: Byte := 0
  const CHUNK_TYPE: Byte := 1

  /** A control message is its plaintext here; the MessagePack encoding is not modelled. */
  datatype RelayMsg = CtrlMsg(plain: seq<Byte>) | ChunkMsg(frame: Frame)

  /** What a sender puts on the stream: control messages carry the nonce they were sealed under. */
  datatype Item = CtrlItem(nonce: Word64, plain: seq<Byte>) | ChunkItem(frame: Frame)

  function CtrlBytes(a: Aead, nonce: Word64, plain: seq<Byte>): seq<Byte> {
    var c := a.seal(nonce, plain);
    [CTRL_TYPE] + (U64(nonce) + U32(|c| % U32_LIMIT) + c)
  }

  function ItemBytes(a: Aead, item: Item): seq<Byte> {
    match item
    case CtrlItem(nonce, plain) => CtrlBytes(a, nonce, plain)
    case ChunkItem(f) => [CHUNK_TYPE] + FrameBytes(f)
  }

  function AllBytes(a: Aead, items: seq<Item>): seq<Byte> {
    if items == [] then [] else ItemBytes(a, items[0]) + AllBytes(a, items[1..])
  }

  datatype Fault = StreamEnded | BadSeal | UnknownType

  datatype Received = Failed(why: Fault) | Msg(msg: RelayMsg, next: nat)

  function ReadCtrl(a: Aead, s: seq<Byte>, pos: nat): Received
    requires pos <= |s|
  {
    if pos + 12 > |s| then Failed(StreamEnded)
    else
      var next := pos + 12 + FromU32(s[pos + 8..pos + 12]);
      if next > |s| then Failed(StreamEnded)
      else match a.open(FromU64(s[pos..pos + 8]), s[pos + 12..next])
        case None => Failed(BadSeal)
        case Some(p) => Msg(CtrlMsg(p), next)
  }

  function ReadChunkMsg(s: seq<Byte>, pos: nat): Received
    requires pos <= |s|
  {
    if pos + 8 > |s| then Failed(StreamEnded)
    else
      var next := pos + 8 + FromU32(s[pos + 4..pos + 8]);
      if next > |s| then Failed(StreamEnded)
      else Msg(ChunkMsg(Frame(FromU32(s[pos..pos + 4]), s[pos + 8..next])), next)
  }

  function ReadMsg(a: Aead, s: seq<Byte>, pos: nat): Received
    requires pos <= |s|
  {
    if pos == |s| then Failed(StreamEnded)
    else if s[pos] == CTRL_TYPE then ReadCtrl(a, s, pos + 1)
    else if s[pos] == CHUNK_TYPE then ReadChunkMsg(s, pos + 1)
    else Failed(UnknownType)
  }

  method RecvMsg(a: Aead, stream: ByteStream) returns (r: Received)
    requires stream.Valid()
    modifies stream
    ensures stream.Valid()
    ensures r == ReadMsg(a, stream.data, old(stream.pos))
    ensures r.Msg? ==> stream.pos == r.next
  {
    var typeBuf := stream.ReadExact(1);
    if typeBuf.None? {
      return Failed(StreamEnded);
    }
    if typeBuf.value[0] == CTRL_TYPE {
      var nonceBuf := stream.ReadExact(8);
      if nonceBuf.None? {
        return Failed(StreamEnded);
      }
      var lenBuf := stream.ReadExact(4);
      if lenBuf.None? {
        return Failed(StreamEnded);
      }
      var body := stream.ReadExact(FromU32(lenBuf.value));
      if body.None? {
        return Failed(StreamEnded);
      }
      var plain := a.open(FromU64(nonceBuf.value), body.value);
      if plain.None? {
        return Failed(BadSeal);
      }
      r := Msg(CtrlMsg(plain.value), stream.pos);
    } else if typeBuf.value[0] == CHUNK_TYPE {
      var idxBuf := stream.ReadExact(4);
      if idxBuf.None? {
        return Failed(StreamEnded);
      }
      var lenBuf := stream.ReadExact(4);
      if lenBuf.None? {
        return Failed(StreamEnded);
      }
      var body := stream.ReadExact(FromU32(lenBuf.value));
      if body.None? {
        return Failed(StreamEnded);
      }
      r := Msg(ChunkMsg(Frame(FromU32(idxBuf.value), body.value)), stream.pos);
    } else {
      r := Failed(UnknownType);
    }
  }

  // ---- Reading back what was written ----

  /** What fits its length fields and, for a control message, opens again. */
  ghost predicate Sendable(a: Aead, item: Item) {
    match item
    case CtrlItem(nonce, plain) =>
      |a.seal(nonce, plain)| < U32_LIMIT && a.open(nonce, a.seal(nonce, plain)) == Some(plain)
    case ChunkItem(f) => f.index < U32_LIMIT && |f.payload| < U32_LIMIT
  }

  lemma CtrlSendable(a: Aead, nonce: Word64, plain: seq<Byte>)
    requires a.Lawful() && |plain| <= MAX_PLAIN
    ensures Sendable(a, CtrlItem(nonce, plain))
  {
  }

  function Meaning(item: Item): RelayMsg {
    match item
    case CtrlItem(_, plain) => CtrlMsg(plain)
    case ChunkItem(f) => ChunkMsg(f)
  }

  lemma TypeByte(pre: seq<Byte>, t: Byte, body: seq<Byte>, post: seq<Byte>)
    ensures var s := pre + ([t] + body) + post;
      s[|pre|] == t && s == (pre + [t]) + body + post
  {
  }

  /** A chunk message is read back whatever its payload is, so a corrupted payload never shifts the stream. */
  lemma ReadChunkItem(a: Aead, f: Frame, pre: seq<Byte>, post: seq<Byte>)
    requires Sendable(a, ChunkItem(f))
    ensures ReadMsg(a, pre + ItemBytes(a, ChunkItem(f)) + post, |pre|)
         == Msg(ChunkMsg(f), |pre| + |ItemBytes(a, ChunkItem(f))|)
  {
    TypeByte(pre, CHUNK_TYPE, FrameBytes(f), post);
    var pre' := pre + [CHUNK_TYPE];
    FrameHeader(f, pre', post);
    SliceInside(pre' + U32(f.index) + U32(|f.payload|), f.payload, post, 0, |f.payload|);
  }

  lemma ReadCtrlItem(a: Aead, nonce: Word64, plain: seq<Byte>, pre: seq<Byte>, post: seq<Byte>)
    requires Sendable(a, CtrlItem(nonce, plain))
    ensures ReadMsg(a, pre + CtrlBytes(a, nonce, plain) + post, |pre|)
         == Msg(CtrlMsg(plain), |pre| + |CtrlBytes(a, nonce, plain)|)
  {
    var c := a.seal(nonce, plain);
    NoTruncation(|c|);
    CtrlRead(a, U64(nonce), U32(|c|), c, plain, pre, post);
  }

  lemma CtrlRead(a: Aead, x: seq<Byte>, y: seq<Byte>, c: seq<Byte>, plain: seq<Byte>, pre: seq<Byte>, post: seq<Byte>)
    requires |x| == 8 && |y| == 4 && FromU32(y) == |c| && a.open(FromU64(x), c) == Some(plain)
    ensures ReadMsg(a, pre + ([CTRL_TYPE] + (x + y + c)) + post, |pre|) == Msg(CtrlMsg(plain), |pre| + 13 + |c|)
  {
    TypeByte(pre, CTRL_TYPE, x + y + c, post);
    Headed(pre + [CTRL_TYPE], x, y, c, post);
    SliceInside(pre + [CTRL_TYPE] + x + y, c, post, 0, |c|);
  }

  /** Read `n` messages from position `pos`. */
  function ReadMany(a: Aead, s: seq<Byte>, pos: nat, n: nat): Option<seq<RelayMsg>>
    requires pos <= |s|
    decreases n
  {
    if n == 0 then Some([])
    else match ReadMsg(a, s, pos)
      case Failed(_) => None
      case Msg(m, next) =>
        ReadMsgAdvances(a, s, pos);
        match ReadMany(a, s, next, n - 1)
        case None => None
        case Some(rest) => Some([m] + rest)
  }

  lemma ReadMsgAdvances(a: Aead, s: seq<Byte>, pos: nat)
    requires pos <= |s|
    ensures ReadMsg(a, s, pos).Msg? ==> pos < ReadMsg(a, s, pos).next <= |s|
  {
  }

  function Meanings(items: seq<Item>): seq<RelayMsg> {
    if items == [] then [] else [Meaning(items[0])] + Meanings(items[1..])
  }

  lemma ReadItem(a: Aead, item: Item, pre: seq<Byte>, post: seq<Byte>)
    requires Sendable(a, item)
    ensures ReadMsg(a, pre + ItemBytes(a, item) + post, |pre|) == Msg(Meaning(item), |pre| + |ItemBytes(a, item)|)
  {
    match item {
      case CtrlItem(nonce, plain) => ReadCtrlItem(a, nonce, plain, pre, post);
      case ChunkItem(f) => ReadChunkItem(a, f, pre, post);
    }
  }

  lemma ReadFirst(a: Aead, items: seq<Item>, s: seq<Byte>, pos: nat)
    requires items != [] && Sendable(a, items[0]) && pos <= |s| && s[pos..] == AllBytes(a, items)
    ensures var next := pos + |ItemBytes(a, items[0])|;
      next <= |s| && ReadMsg(a, s, pos) == Msg(Meaning(items[0]), next) && s[next..] == AllBytes(a, items[1..])
  {
    ReadOn(s, pos, ItemBytes(a, items[0]), AllBytes(a, items[1..]));
    ReadItem(a, items[0], s[..pos], AllBytes(a, items[1..]));
  }

  /** Any mix of control and chunk messages is read back in order, message by message, whatever the
      chunk payloads are. */
  lemma {:induction false} ReadBack(a: Aead, items: seq<Item>, s: seq<Byte>, pos: nat)
    requires forall item :: item in items ==> Sendable(a, item)
    requires pos <= |s| && s[pos..] == AllBytes(a, items)
    ensures ReadMany(a, s, pos, |items|) == Some(Meanings(items))
    decreases |items|
  {
    if items != [] {
      ReadFirst(a, items, s, pos);
      ReadBack(a, items[1..], s, pos + |ItemBytes(a, items[0])|);
    }
  }

  /** What the sending side may put on the stream: short enough for the cipher and the length fields. */
  predicate Fits(item: Item) {
    match item
    case CtrlItem(_, plain) => |plain| <= MAX_PLAIN
    case ChunkItem(f) => f.index < U32_LIMIT && |f.payload| < U32_LIMIT
  }

  /** So it is, for every lawful cipher, with any messages that fit. */
  lemma FittingReadBack(a: Aead, items: seq<Item>, s: seq<Byte>, pos: nat)
    requires a.Lawful() && (forall item :: item in items ==> Fits(item))
    requires pos <= |s| && s[pos..] == AllBytes(a, items)
    ensures ReadMany(a, s, pos, |items|) == Some(Meanings(items))
  {
    forall item | item in items
      ensures Sendable(a, item)
    {
      if item.CtrlItem? {
        CtrlSendable(a, item.nonce, item.plain);
      }
    }
    ReadBack(a, items, s, pos);
  }

  // ---- What arbitrary bytes can yield ----

  /** A control message is only ever one that opens under the nonce in front of it, a chunk message what
      the bytes are; either way the bytes consumed are those of the message. */
  lemma ReadMsgOnly(a: Aead, s: seq<Byte>, pos: nat)
    requires pos <= |s| && ReadMsg(a, s, pos).Msg?
    ensures var r := ReadMsg(a, s, pos);
      && pos < r.next <= |s|
      && match r.msg
         case CtrlMsg(p) =>
           && pos + 13 <= r.next && s[pos] == 0x00
           && a.open(FromU64(s[pos + 1..pos + 9]), s[pos + 13..r.next]) == Some(p)
           && FromU32(s[pos + 9..pos + 13]) == r.next - (pos + 13)
         case ChunkMsg(f) =>
           && pos + 9 <= r.next && s[pos] == 0x01 && f.index == FromU32(s[pos + 1..pos + 5])
           && f.payload == s[pos + 9..r.next] && FromU32(s[pos + 5..pos + 9]) == |f.payload|
  {
  }

  /** For a lawful cipher, a control message read off any bytes is one that its sender wrote: the bytes are
      those of the message under some nonce. */
  lemma CtrlReadIsWritten(a: Aead, s: seq<Byte>, pos: nat) returns (nonce: Word64)
    requires a.Lawful() && pos <= |s| && ReadMsg(a, s, pos).Msg? && ReadMsg(a, s, pos).msg.CtrlMsg?
    ensures var r := ReadMsg(a, s, pos);
      pos <= r.next <= |s| && s[pos..r.next] == CtrlBytes(a, nonce, r.msg.plain)
  {
    ReadMsgOnly(a, s, pos);
    var next := ReadMsg(a, s, pos).next;
    nonce := FromU64(s[pos + 1..pos + 9]);
    var c := s[pos + 13..next];
    LongBack(s[pos + 1..pos + 9]);
    WordBack(s[pos + 9..pos + 13]);
    NoTruncation(|c|);
    assert s[pos..next] == [s[pos]] + (s[pos + 1..pos + 9] + s[pos + 9..pos + 13] + c);
  }

  /** And a chunk message is written back as it was read. */
  lemma ChunkReadIsWritten(a: Aead, s: seq<Byte>, pos: nat)
    requires pos <= |s| && ReadMsg(a, s, pos).Msg? && ReadMsg(a, s, pos).msg.ChunkMsg?
    ensures var r := ReadMsg(a, s, pos);
      pos <= r.next <= |s| && s[pos..r.next] == ItemBytes(a, ChunkItem(r.msg.frame))
  {
    ReadMsgOnly(a, s, pos);
    var next := ReadMsg(a, s, pos).next;
    var f := ReadMsg(a, s, pos).msg.frame;
    WordBack(s[pos + 1..pos + 5]);
    WordBack(s[pos + 5..pos + 9]);
    NoTruncation(f.index);
    NoTruncation(|f.payload|);
    assert s[pos..next] == [s[pos]] + (s[pos + 1..pos + 5] + s[pos + 5..pos + 9] + f.payload);
  }

  /** Why reading fails: the first byte is of no known type, a whole control message does not open, or
      the stream ends within the message. */
  lemma ReadMsgFails(a: Aead, s: seq<Byte>, pos: nat)
    requires pos <= |s| && ReadMsg(a, s, pos).Failed?
    ensures match ReadMsg(a, s, pos).why
      case UnknownType => pos < |s| && s[pos] != 0x00 && s[pos] != 0x01
      case BadSeal =>
        && pos + 13 <= |s| && s[pos] == 0x00 && pos + 13 + FromU32(s[pos + 9..pos + 13]) <= |s|
        && a.open(FromU64(s[pos + 1..pos + 9]), s[pos + 13..pos + 13 + FromU32(s[pos + 9..pos + 13])]) == None
      case StreamEnded =>
        || pos == |s|
        || (s[pos] == 0x00 && (pos + 13 <= |s| ==> |s| < pos + 13 + FromU32(s[pos + 9..pos + 13])))
        || (s[pos] == 0x01 && (pos + 9 <= |s| ==> |s| < pos + 9 + FromU32(s[pos + 5..pos + 9])))
  {
  }
}
