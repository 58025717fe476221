/** What one chunk frame makes the two receivers do: the loop bodies of
    p2pshare-core/src/transfer/receiver.rs and p2pshare-core/src/transfer/relay_receiver.rs,
    as functions on the receiver's variables. */
module Receiver {
  import opened Bytes
  import opened Manifest
  import opened Codec
  import opened Wire

  const ACK_INTERVAL: nat := 4
  const SAVE_INTERVAL: nat := 16

  datatype Path = Direct | Relay

  /** Receiving chunks; then the final save, Complete and the deletion of the saved state. */
  datatype Phase = Receiving | Saved | Completed | Deleted

  /** A chunk write running in the background. */
  datatype Write = Write(index: nat, data: seq<Byte>)

  /** `done` is `chunks_done`; `saved` is the set in the state file, if there is one; `open` says
      whether the data stream has been accepted. The relay receiver leaves the acknowledgement and
      save counters and the background write alone. */
  datatype Recv = Recv(
    open: bool,
    pending: set<nat>,
    done: set<nat>,
    confirmed: nat,
    sinceAck: nat,
    sinceSave: nat,
    saveDue: bool,
    writing: Option<Write>,
    file: seq<Byte>,
    saved: Option<set<nat>>,
    phase: Phase)

  /** The receiver's new variables and the control messages it sent. */
  datatype Reply = Reply(rcv: Recv, sent: seq<Ctrl>)

  ghost predicate Writable(l: Layout, r: Recv) {
    && |r.file| == l.totalSize
    && (r.writing.Some? ==>
          var w := r.writing.value;
          w.index < l.chunkCount && l.Offset(w.index) <= l.totalSize && |w.data| == l.Size(w.index))
  }

  /** The output file once the background write, if any, has finished. */
  function Landed(l: Layout, r: Recv): (f: seq<Byte>)
    requires l.Valid() && Writable(l, r)
    ensures |f| == l.totalSize
  {
    if r.writing.None? then r.file
    else
      ChunkInside(l, r.writing.value.index);
      WriteAt(l, r.file, r.writing.value.index, r.writing.value.data)
  }

  /** Await the previous write, start this one in the background, count, acknowledge in batches. */
  function DirectAccept(l: Layout, r: Recv, i: nat, p: seq<Byte>): Reply
    requires l.Valid() && Writable(l, r)
  {
    var pending := r.pending - {i};
    var confirmed := r.confirmed + |p|;
    var ackDue := r.sinceAck + 1 >= ACK_INTERVAL || pending == {};
    Reply(
      r.(pending := pending, done := r.done + {i}, confirmed := confirmed,
         sinceAck := if ackDue then 0 else r.sinceAck + 1,
         sinceSave := r.sinceSave + 1, saveDue := r.sinceSave + 1 >= SAVE_INTERVAL,
         writing := Some(Write(i, p)), file := Landed(l, r)),
      if ackDue then [Progress(confirmed)] else [])
  }

  /** A frame for a chunk that is no longer pending is drained and ignored. */
  function DirectReceive(a: Aead, l: Layout, r: Recv, f: Frame): Reply
    requires l.Valid() && Writable(l, r) && f.index < l.chunkCount
  {
    ChunkInside(l, f.index);
    if f.index !in r.pending then Reply(r, [])
    else match Verdict(a, l, f)
      case None => Reply(r, [ChunkNack(f.index)])
      case Some(p) => DirectAccept(l, r, f.index, p)
  }

  /** Write the chunk, count it, acknowledge it. */
  function RelayAccept(l: Layout, r: Recv, i: nat, p: seq<Byte>): Reply
    requires l.Valid() && |r.file| == l.totalSize && l.Offset(i) + |p| <= l.totalSize
  {
    var done := r.done + {i};
    var confirmed := r.confirmed + |p|;
    Reply(
      r.(pending := r.pending - {i}, done := done, confirmed := confirmed,
         saveDue := |done| % SAVE_INTERVAL == 0, file := WriteAt(l, r.file, i, p)),
      [Progress(confirmed)])
  }

  /** No look at `pending` before the chunk is written and counted. */
  function RelayReceive(a: Aead, l: Layout, r: Recv, f: Frame): Reply
    requires l.Valid() && Writable(l, r) && f.index < l.chunkCount
  {
    ChunkInside(l, f.index);
    match Verdict(a, l, f)
    case None => Reply(r, [ChunkNack(f.index)])
    case Some(p) => RelayAccept(l, r, f.index, p)
  }

  function Receive(path: Path, a: Aead, l: Layout, r: Recv, f: Frame): Reply
    requires l.Valid() && Writable(l, r) && f.index < l.chunkCount
  {
    if path.Direct? then DirectReceive(a, l, r, f) else RelayReceive(a, l, r, f)
  }

  /** After the loop: the final save, then Complete, then the deletion of the saved state. */
  function NextPhase(r: Recv): Reply {
    match r.phase
    case Receiving => Reply(r.(phase := Saved, saved := Some(r.done)), [])
    case Saved => Reply(r.(phase := Completed), [Complete])
    case _ => Reply(r.(phase := Deleted, saved := None), [])
  }
}
