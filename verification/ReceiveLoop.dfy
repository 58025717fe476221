/** The receive loops as they run: objects whose fields the loop bodies of
    p2pshare-core/src/transfer/receiver.rs and p2pshare-core/src/transfer/relay_receiver.rs update,
    reading bytes off a stream, proved against the functions the transition system uses. */
module ReceiveLoop {
  import opened Bytes
  import opened Manifest
  import opened Codec
  import opened Wire
  import opened Streaming
  import opened RelayWire
  import opened Receiver

  /** The throttled save at the end of a loop body. */
  function Settle(r: Recv): Recv {
    if r.saveDue then r.(saved := Some(r.done), saveDue := false, sinceSave := 0) else r
  }

  datatype Drained = Drained(rcv: Recv, sent: seq<Ctrl>, used: nat)

  ghost predicate ForLayout(l: Layout, fs: seq<Frame>) {
    forall f :: f in fs ==> f.index < l.chunkCount
  }

  /** The loop on frames: receive one after the other until no chunk is pending, or no frame is left. */
  function Drain(path: Path, a: Aead, l: Layout, r: Recv, fs: seq<Frame>): Drained
    requires l.Valid() && Writable(l, r) && ForLayout(l, fs)
    decreases |fs|
  {
    if r.pending == {} || fs == [] then Drained(r, [], 0)
    else
      ChunkInside(l, fs[0].index);
      var reply := Receive(path, a, l, r, fs[0]);
      var rest := Drain(path, a, l, Settle(reply.rcv), fs[1..]);
      Drained(rest.rcv, reply.sent + rest.sent, rest.used + 1)
  }

  /** `d`, preceded by the sending of `log` and the use of `used` frames. */
  function Preceded(d: Drained, log: seq<Ctrl>, used: nat): Drained {
    Drained(d.rcv, log + d.sent, used + d.used)
  }

  /** One turn of the loop moves one frame and its reply from what is to come to what is done. */
  lemma DrainTurn(path: Path, a: Aead, l: Layout, r: Recv, fs: seq<Frame>, log: seq<Ctrl>, used: nat)
    requires l.Valid() && Writable(l, r) && ForLayout(l, fs) && used < |fs| && r.pending != {}
    ensures fs[used..][1..] == fs[used + 1..] && fs[used..][0] == fs[used] && fs[used] in fs
    ensures ForLayout(l, fs[used..]) && ForLayout(l, fs[used + 1..])
    ensures var reply := Receive(path, a, l, r, fs[used]);
      && Writable(l, Settle(reply.rcv))
      && Preceded(Drain(path, a, l, r, fs[used..]), log, used)
         == Preceded(Drain(path, a, l, Settle(reply.rcv), fs[used + 1..]), log + reply.sent, used + 1)
  {
    ChunkInside(l, fs[used].index);
    var reply := Receive(path, a, l, r, fs[used]);
    assert fs[used..][1..] == fs[used + 1..];
    var rest := Drain(path, a, l, Settle(reply.rcv), fs[used + 1..]);
    assert log + (reply.sent + rest.sent) == (log + reply.sent) + rest.sent;
  }

  /** What is left on the stream. */
  ghost predicate Carries(stream: ByteStream, bytes: seq<Byte>)
    reads stream
  {
    stream.pos <= |stream.data| && stream.data[stream.pos..] == bytes
  }

  ghost predicate InStep(l: Layout, fs: seq<Frame>) {
    forall f :: f in fs ==> FitsHeader(f, MaxPayload(l.chunkSize)) && Framed(f.payload)
  }

  ghost predicate Framable(a: Aead, fs: seq<Frame>) {
    forall f :: f in fs ==> Sendable(a, ChunkItem(f))
  }

  // ---- The direct receiver on bytes ----

  /** What the direct loop does once it has read a frame. */
  function OutcomeReply(l: Layout, r: Recv, index: nat, outcome: Outcome): Reply
    requires l.Valid() && Writable(l, r) && (!outcome.Skipped? ==> index < l.chunkCount)
  {
    match outcome
    case Skipped => Reply(r, [])
    case DecryptFailed => Reply(r, [ChunkNack(index)])
    case Plain(p) =>
      ChunkInside(l, index);
      if |p| == l.Size(index) then DirectAccept(l, r, index, p) else Reply(r, [ChunkNack(index)])
  }

  /** On a frame: what the transition system's receiver does. */
  lemma OutcomeIsReceive(a: Aead, l: Layout, r: Recv, f: Frame)
    requires l.Valid() && Writable(l, r) && f.index < l.chunkCount
    ensures OutcomeReply(l, r, f.index, FrameOutcome(a, f, r.pending)) == DirectReceive(a, l, r, f)
  {
    ChunkInside(l, f.index);
  }

  ghost predicate Within(l: Layout, r: Recv) {
    l.Valid() && Writable(l, r) && r.pending <= Range(l.chunkCount)
  }

  lemma OutcomeWithin(l: Layout, r: Recv, index: nat, outcome: Outcome)
    requires Within(l, r) && (outcome.Skipped? || index in r.pending)
    ensures Within(l, Settle(OutcomeReply(l, r, index, outcome).rcv))
  {
    if !outcome.Skipped? {
      ChunkInside(l, index);
    }
  }

  datatype Turn = NoTurn | Turn(rcv: Recv, sent: seq<Ctrl>, next: nat)

  /** One turn of the loop on any bytes `s` from position `pos`, in step or not. */
  function OneTurn(a: Aead, l: Layout, r: Recv, s: seq<Byte>, pos: nat): (t: Turn)
    requires Within(l, r) && pos <= |s|
    ensures t.Turn? ==> Within(l, t.rcv) && pos < t.next <= |s| && t.rcv.phase == r.phase
  {
    match ReadFrame(a, MaxPayload(l.chunkSize), s, pos, r.pending)
    case Stopped(_) => NoTurn
    case Got(index, outcome, next) =>
      ReadIsFrame(a, MaxPayload(l.chunkSize), s, pos, r.pending);
      OutcomeWithin(l, r, index, outcome);
      var reply := OutcomeReply(l, r, index, outcome);
      Turn(Settle(reply.rcv), reply.sent, next)
  }

  /** What the loop did on a byte stream, where it stopped reading, and whether nothing is pending. */
  datatype Streamed = Streamed(rcv: Recv, sent: seq<Ctrl>, next: nat, complete: bool)

  function OnStream(a: Aead, l: Layout, r: Recv, s: seq<Byte>, pos: nat): Streamed
    requires Within(l, r) && pos <= |s|
    decreases |s| - pos
  {
    if r.pending == {} then Streamed(r, [], pos, true)
    else
      match OneTurn(a, l, r, s, pos)
      case NoTurn => Streamed(r, [], pos, false)
      case Turn(r', sent, next) => Later(OnStream(a, l, r', s, next), sent)
  }

  /** `t`, preceded by the sending of `log`. */
  function Later(t: Streamed, log: seq<Ctrl>): Streamed {
    t.(sent := log + t.sent)
  }

  lemma {:induction false} CompleteIsEmpty(a: Aead, l: Layout, r: Recv, s: seq<Byte>, pos: nat)
    requires Within(l, r) && pos <= |s|
    ensures var t := OnStream(a, l, r, s, pos);
      Within(l, t.rcv) && t.rcv.phase == r.phase && (t.complete <==> t.rcv.pending == {})
    decreases |s| - pos
  {
    if r.pending != {} {
      var turn := OneTurn(a, l, r, s, pos);
      if turn.Turn? {
        CompleteIsEmpty(a, l, turn.rcv, s, turn.next);
      }
    }
  }

  lemma LaterLater(t: Streamed, log: seq<Ctrl>, more: seq<Ctrl>)
    ensures Later(Later(t, more), log) == Later(t, log + more)
  {
    assert log + (more + t.sent) == log + more + t.sent;
  }

  class DirectReceiver {
    const aead: Aead
    const layout: Layout
    var pending: set<nat>
    var done: set<nat>
    var confirmed: nat
    var sinceAck: nat
    var sinceSave: nat
    var pendingWrite: Option<Write>
    var file: seq<Byte>
    var saved: Option<set<nat>>
    var phase: Phase
    var sent: seq<Ctrl>

    ghost function State(): Recv
      reads this
    {
      Recv(true, pending, done, confirmed, sinceAck, sinceSave, false, pendingWrite, file, saved, phase)
    }

    ghost predicate Valid()
      reads this
    {
      Within(layout, State())
    }

    /** Start from the output file, the chunks done and the state file, and set the progress counter. */
    constructor (aead: Aead, layout: Layout, file: seq<Byte>, done: set<nat>, saved: Option<set<nat>>,
                 progress: Counter)
      requires layout.Valid() && |file| == layout.totalSize
      modifies progress
      ensures Valid() && this.aead == aead && this.layout == layout && sent == []
      ensures State() == Recv(true, Range(layout.chunkCount) - done, done, DoneBytes(layout, done, layout.chunkCount),
                              0, 0, false, None, file, saved, Receiving)
      ensures progress.done == confirmed && progress.total == layout.totalSize
    {
      var initialDone := DoneBytes(layout, done, layout.chunkCount);
      progress.Reset(layout.totalSize);
      if initialDone > 0 {
        progress.Advance(initialDone);
      }
      this.aead, this.layout := aead, layout;
      this.pending, this.done := Range(layout.chunkCount) - done, done;
      this.confirmed := initialDone;
      this.sinceAck, this.sinceSave, this.pendingWrite := 0, 0, None;
      this.file, this.saved, this.phase, this.sent := file, saved, Receiving, [];
    }

    /** `pending_write.take()` and its await. */
    method AwaitWrite()
      requires Valid()
      modifies `pendingWrite, `file
      ensures Valid() && pendingWrite == None && file == old(Landed(layout, State()))
    {
      if pendingWrite.Some? {
        var w := pendingWrite.value;
        ChunkInside(layout, w.index);
        file := WriteAt(layout, file, w.index, w.data);
        pendingWrite := None;
      }
    }

    /** The batched report of confirmed bytes. */
    method Acknowledge()
      modifies `sinceAck, `sent
      ensures var due := old(sinceAck) + 1 >= ACK_INTERVAL || pending == {};
        && sinceAck == (if due then 0 else old(sinceAck) + 1)
        && sent == old(sent) + (if due then [Progress(confirmed)] else [])
    {
      sinceAck := sinceAck + 1;
      if sinceAck >= ACK_INTERVAL || pending == {} {
        sent := sent + [Progress(confirmed)];
        sinceAck := 0;
      }
    }

    /** The throttled save. */
    method SaveNowAndThen()
      modifies `sinceSave, `saved
      ensures var due := old(sinceSave) + 1 >= SAVE_INTERVAL;
        && sinceSave == (if due then 0 else old(sinceSave) + 1)
        && saved == (if due then Some(done) else old(saved))
    {
      sinceSave := sinceSave + 1;
      if sinceSave >= SAVE_INTERVAL {
        saved := Some(done);
        sinceSave := 0;
      }
    }

    /** The loop body once a chunk of the right size is decrypted. */
    method Accept(index: nat, plaintext: seq<Byte>)
      requires Valid() && index in pending && layout.Offset(index) <= layout.totalSize
      requires |plaintext| == layout.Size(index)
      modifies this
      ensures Valid()
      ensures State() == Settle(DirectAccept(layout, old(State()), index, plaintext).rcv)
      ensures sent == old(sent) + DirectAccept(layout, old(State()), index, plaintext).sent
    {
      OutcomeWithin(layout, State(), index, Plain(plaintext));
      AwaitWrite();
      pendingWrite := Some(Write(index, plaintext));
      pending := pending - {index};
      done := done + {index};
      confirmed := confirmed + |plaintext|;
      Acknowledge();
      SaveNowAndThen();
    }

    /** The loop body after the frame has been read. The progress counter already holds the plaintext
        read for this frame; a plaintext of the wrong size is taken back. */
    method OnFrame(index: nat, outcome: Outcome, progress: Counter)
      requires Valid() && (outcome.Skipped? || index in pending)
      requires progress.done == confirmed + if outcome.Plain? then |outcome.bytes| else 0
      modifies this, progress`done
      ensures Valid()
      ensures State() == Settle(OutcomeReply(layout, old(State()), index, outcome).rcv)
      ensures sent == old(sent) + OutcomeReply(layout, old(State()), index, outcome).sent
      ensures progress.done == confirmed
    {
      match outcome {
        case Skipped =>
        case DecryptFailed =>
          sent := sent + [ChunkNack(index)];
        case Plain(plaintext) =>
          ChunkInside(layout, index);
          if |plaintext| != layout.Size(index) {
            progress.Retract(|plaintext|);
            sent := sent + [ChunkNack(index)];
          } else {
            Accept(index, plaintext);
          }
      }
    }

    /** One turn of the loop, on any bytes. */
    method ReceiveOne(stream: ByteStream, progress: Counter) returns (ok: bool)
      requires Valid() && stream.Valid() && progress.done == confirmed
      modifies this, stream, progress`done
      ensures Valid() && stream.Valid()
      ensures var turn := OneTurn(aead, layout, old(State()), stream.data, old(stream.pos));
        && ok == turn.Turn?
        && (!ok ==> State() == old(State()) && sent == old(sent))
        && (ok ==> State() == turn.rcv && sent == old(sent) + turn.sent)
        && (ok ==> stream.pos == turn.next && progress.done == confirmed)
    {
      var r := ReceiveFrame(aead, MaxPayload(layout.chunkSize), stream, pending, progress);
      if r.Stopped? {
        return false;
      }
      OnFrame(r.index, r.outcome, progress);
      ok := true;
    }

    /** The loop over the byte stream, whatever its bytes are: it ends with the variables and messages
        of `OnStream`, and where nothing is left pending, with the progress counter at `confirmed`. */
    method Run(stream: ByteStream, progress: Counter) returns (complete: bool)
      requires Valid() && stream.Valid() && progress.done == confirmed
      modifies this, stream, progress`done
      ensures Valid() && stream.Valid() && (complete ==> progress.done == confirmed)
      ensures var t := OnStream(aead, layout, old(State()), stream.data, old(stream.pos));
        && State() == t.rcv && sent == old(sent) + t.sent && complete == t.complete
        && (complete ==> stream.pos == t.next)
    {
      ghost var whole := OnStream(aead, layout, State(), stream.data, stream.pos);
      ghost var log: seq<Ctrl> := [];
      while pending != {}
        invariant Valid() && stream.Valid() && progress.done == confirmed
        invariant sent == old(sent) + log
        invariant whole == Later(OnStream(aead, layout, State(), stream.data, stream.pos), log)
        decreases |stream.data| - stream.pos
      {
        ghost var turn := OneTurn(aead, layout, State(), stream.data, stream.pos);
        var ok := ReceiveOne(stream, progress);
        if !ok {
          return false;
        }
        LaterLater(OnStream(aead, layout, State(), stream.data, stream.pos), log, turn.sent);
        log := log + turn.sent;
      }
      complete := true;
    }

    /** After the loop: the last write, then the final save, then Complete, then the deletion of the
        saved state. `steps` are the states in between. */
    method Conclude() returns (ghost steps: seq<Recv>)
      requires Valid() && pending == {} && phase == Receiving
      modifies this
      ensures Valid() && Concludes(old(State()).(file := old(Landed(layout, State())), writing := None), steps)
      ensures State() == steps[3] && sent == old(sent) + [Complete]
    {
      AwaitWrite();
      steps := [State()];
      saved, phase := Some(done), Saved;
      steps := steps + [State()];
      sent, phase := sent + [Complete], Completed;
      steps := steps + [State()];
      saved, phase := None, Deleted;
      steps := steps + [State()];
    }
  }

  /** From `r`, the transition system's phases one after the other. */
  ghost predicate Concludes(r: Recv, steps: seq<Recv>) {
    && |steps| == 4 && steps[0] == r
    && (forall k :: 1 <= k < 4 ==> steps[k] == NextPhase(steps[k - 1]).rcv)
    && NextPhase(steps[0]).sent == [] && NextPhase(steps[1]).sent == [Complete] && NextPhase(steps[2]).sent == []
  }

  // ---- Streams of frames ----

  lemma StreamEnds(a: Aead, maxPayload: nat, s: seq<Byte>, pending: set<nat>)
    ensures ReadFrame(a, maxPayload, s, |s|, pending) == Stopped(EndOfStream)
  {
  }

  /** Reading on the bytes of a frame in step. */
  lemma ReadOnFrame(a: Aead, l: Layout, pending: set<nat>, f: Frame, rest: seq<Byte>, s: seq<Byte>, pos: nat)
    requires pos <= |s| && s[pos..] == FrameBytes(f) + rest
    requires FitsHeader(f, MaxPayload(l.chunkSize)) && Framed(f.payload)
    ensures var next := pos + |FrameBytes(f)|;
      && next <= |s| && s[next..] == rest
      && ReadFrame(a, MaxPayload(l.chunkSize), s, pos, pending) == Got(f.index, FrameOutcome(a, f, pending), next)
  {
    ReadOn(s, pos, FrameBytes(f), rest);
    FrameAgrees(a, MaxPayload(l.chunkSize), f, s[..pos], rest, pending);
  }

  /** One turn on the bytes of a frame in step. */
  lemma TurnOnFrame(a: Aead, l: Layout, r: Recv, f: Frame, rest: seq<Byte>, s: seq<Byte>, pos: nat)
    requires Within(l, r) && pos <= |s| && s[pos..] == FrameBytes(f) + rest
    requires f.index < l.chunkCount && FitsHeader(f, MaxPayload(l.chunkSize)) && Framed(f.payload)
    ensures var next, reply := pos + |FrameBytes(f)|, DirectReceive(a, l, r, f);
      && OneTurn(a, l, r, s, pos) == Turn(Settle(reply.rcv), reply.sent, next)
      && next <= |s| && s[next..] == rest
  {
    ReadOnFrame(a, l, r.pending, f, rest, s, pos);
    OutcomeIsReceive(a, l, r, f);
  }

  /** On the bytes of frames whose payloads keep the decoder in step, the loop on bytes is the loop on
      frames: it uses whole frames, and ends before the end of the stream only with nothing pending. */
  lemma {:induction false} StreamOfFrames(a: Aead, l: Layout, r: Recv, fs: seq<Frame>, s: seq<Byte>, pos: nat)
    requires Within(l, r) && pos <= |s| && s[pos..] == StreamBytes(fs) && ForLayout(l, fs) && InStep(l, fs)
    ensures var t, d := OnStream(a, l, r, s, pos), Drain(Direct, a, l, r, fs);
      && t.rcv == d.rcv && t.sent == d.sent && t.complete == (d.rcv.pending == {})
      && d.used <= |fs| && t.next <= |s| && s[t.next..] == StreamBytes(fs[d.used..])
    decreases |fs|
  {
    if r.pending == {} {
      assert fs[0..] == fs;
    } else if fs == [] {
      StreamEnds(a, MaxPayload(l.chunkSize), s, r.pending);
    } else {
      TurnOnFrame(a, l, r, fs[0], StreamBytes(fs[1..]), s, pos);
      var reply := DirectReceive(a, l, r, fs[0]);
      StreamOfFrames(a, l, Settle(reply.rcv), fs[1..], s, pos + |FrameBytes(fs[0])|);
      var used := Drain(Direct, a, l, Settle(reply.rcv), fs[1..]).used;
      assert fs[1..][used..] == fs[used + 1..];
    }
  }

  class RelayReceiver {
    const aead: Aead
    const layout: Layout
    var pending: set<nat>
    var done: set<nat>
    var confirmed: nat
    var file: seq<Byte>
    var saved: Option<set<nat>>
    var phase: Phase
    var sent: seq<Ctrl>

    ghost function State(): Recv
      reads this
    {
      Recv(true, pending, done, confirmed, 0, 0, false, None, file, saved, phase)
    }

    ghost predicate Valid()
      reads this
    {
      layout.Valid() && Writable(layout, State())
    }

    constructor (aead: Aead, layout: Layout, file: seq<Byte>, done: set<nat>, saved: Option<set<nat>>,
                 progress: Counter)
      requires layout.Valid() && |file| == layout.totalSize
      modifies progress
      ensures Valid() && this.aead == aead && this.layout == layout && sent == []
      ensures State() == Recv(true, Range(layout.chunkCount) - done, done, DoneBytes(layout, done, layout.chunkCount),
                              0, 0, false, None, file, saved, Receiving)
      ensures progress.done == confirmed && progress.total == layout.totalSize
    {
      var initialDone := DoneBytes(layout, done, layout.chunkCount);
      progress.Reset(layout.totalSize);
      if initialDone > 0 {
        progress.Advance(initialDone);
      }
      this.aead, this.layout := aead, layout;
      this.pending, this.done := Range(layout.chunkCount) - done, done;
      this.confirmed := initialDone;
      this.file, this.saved, this.phase, this.sent := file, saved, Receiving, [];
    }

    /** The loop body for a chunk message. */
    method OnChunk(f: Frame, progress: Counter)
      requires Valid() && f.index < layout.chunkCount
      modifies this, progress`done
      ensures Valid()
      ensures State() == Settle(RelayReceive(aead, layout, old(State()), f).rcv)
      ensures sent == old(sent) + RelayReceive(aead, layout, old(State()), f).sent
      ensures progress.done - old(progress.done) == confirmed - old(confirmed)
    {
      var plaintext := DecryptChunk(aead, f.index, f.payload);
      if plaintext.Err? {
        sent := sent + [ChunkNack(f.index)];
        return;
      }
      ChunkInside(layout, f.index);
      if |plaintext.value| != layout.Size(f.index) {
        sent := sent + [ChunkNack(f.index)];
        return;
      }
      file := WriteAt(layout, file, f.index, plaintext.value);
      progress.Advance(|plaintext.value|);
      pending := pending - {f.index};
      done := done + {f.index};
      confirmed := confirmed + |plaintext.value|;
      sent := sent + [Progress(confirmed)];
      if |done| % SAVE_INTERVAL == 0 {
        saved := Some(done);
      }
    }

    /** One turn of the loop, on a stream that carries chunk messages for the frames `fs`. */
    method ReceiveOne(stream: ByteStream, progress: Counter, ghost fs: seq<Frame>) returns (ok: bool)
      requires Valid() && progress.done == confirmed
      requires Carries(stream, ChunkBytes(aead, fs)) && ForLayout(layout, fs) && Framable(aead, fs)
      modifies this, stream, progress`done
      ensures Valid() && progress.done == confirmed && ok == (fs != [])
      ensures fs == [] ==> State() == old(State()) && sent == old(sent)
      ensures fs != [] ==>
        && State() == Settle(RelayReceive(aead, layout, old(State()), fs[0]).rcv)
        && sent == old(sent) + RelayReceive(aead, layout, old(State()), fs[0]).sent
        && Carries(stream, ChunkBytes(aead, fs[1..]))
    {
      if fs != [] {
        ReadOn(stream.data, stream.pos, ItemBytes(aead, ChunkItem(fs[0])), ChunkBytes(aead, fs[1..]));
        ReadChunkItem(aead, fs[0], stream.data[..stream.pos], ChunkBytes(aead, fs[1..]));
      }
      var r := RecvMsg(aead, stream);
      if r.Failed? || r.msg.CtrlMsg? {
        return false;
      }
      OnChunk(r.msg.frame, progress);
      ok := true;
    }

    /** The loop over the relay stream. If the stream carries chunk messages for the frames `fs`, with
        any payloads, it does what the loop on frames does and consumes exactly the messages it used. */
    method Run(stream: ByteStream, progress: Counter, ghost fs: seq<Frame>) returns (complete: bool)
      requires Valid() && progress.done == confirmed
      requires Carries(stream, ChunkBytes(aead, fs)) && ForLayout(layout, fs) && Framable(aead, fs)
      modifies this, stream, progress`done
      ensures Valid() && progress.done == confirmed
      ensures var d := Drain(Relay, aead, layout, old(State()), fs);
        && State() == d.rcv && sent == old(sent) + d.sent && complete == (d.rcv.pending == {})
        && d.used <= |fs| && (complete ==> Carries(stream, ChunkBytes(aead, fs[d.used..])))
    {
      ghost var used := 0;
      ghost var log: seq<Ctrl> := [];
      while pending != {}
        invariant Valid() && progress.done == confirmed
        invariant used <= |fs| && Carries(stream, ChunkBytes(aead, fs[used..]))
        invariant sent == old(sent) + log
        invariant Drain(Relay, aead, layout, old(State()), fs)
               == Preceded(Drain(Relay, aead, layout, State(), fs[used..]), log, used)
        decreases |fs| - used
      {
        ghost var reply: seq<Ctrl> := [];
        if used < |fs| {
          DrainTurn(Relay, aead, layout, State(), fs, log, used);
          reply := RelayReceive(aead, layout, State(), fs[used]).sent;
        }
        var ok := ReceiveOne(stream, progress, fs[used..]);
        if !ok {
          return false;
        }
        log := log + reply;
        used := used + 1;
      }
      complete := true;
    }

    /** After the loop: the final save, then Complete, then the deletion of the saved state. */
    method Conclude() returns (ghost steps: seq<Recv>)
      requires Valid() && pending == {} && phase == Receiving
      modifies this
      ensures Valid() && Concludes(old(State()), steps)
      ensures State() == steps[3] && sent == old(sent) + [Complete]
    {
      steps := [State()];
      saved, phase := Some(done), Saved;
      steps := steps + [State()];
      sent, phase := sent + [Complete], Completed;
      steps := steps + [State()];
      saved, phase := None, Deleted;
      steps := steps + [State()];
    }
  }

  function ChunkBytes(a: Aead, fs: seq<Frame>): seq<Byte> {
    if fs == [] then [] else ItemBytes(a, ChunkItem(fs[0])) + ChunkBytes(a, fs[1..])
  }
}
