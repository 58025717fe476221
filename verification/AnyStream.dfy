/** The direct receiver on a data stream of any bytes at all: headers, lengths and payloads may be
    corrupted, bytes added or lost. What it accepts is right as long as nothing it opens was forged. */
module AnyStream {
  import opened Bytes
  import opened Manifest
  import opened Codec
  import opened Wire
  import opened Streaming
  import opened Receiver
  import opened ReceiveLoop
  import opened Protocol
  import opened Conservation
  import opened Delivery
  import L = SendLoop

  /** What the receiver's part of the invariant says at a loop head. */
  ghost predicate AtHead(job: Job, r: Recv)
    requires job.Valid()
  {
    && r.open && r.phase == Receiving && !r.saveDue
    && CountsInv(job, r) && PhaseInv(job, r) && FileInv(job, r) && Within(job.Layout(), r)
  }

  lemma StartAtHead(job: Job)
    requires job.Valid()
    ensures AtHead(job, Init(job).rcv.(open := true))
  {
    InitInv(job);
    StillFile(job, Init(job).rcv, Init(job).rcv.(open := true));
  }

  /** Of what the loop reads on the stream `s` from position `pos`, nothing that it opens was forged. */
  ghost predicate NothingForged(source: Source, r: Recv, s: seq<Byte>, pos: nat)
    requires source.Valid() && Within(source.layout, r) && pos <= |s|
    decreases |s| - pos
  {
    r.pending == {} ||
    var read := ReadFrame(source.aead, MaxPayload(source.layout.chunkSize), s, pos, r.pending);
    read.Stopped? ||
    (ReadIsFrame(source.aead, MaxPayload(source.layout.chunkSize), s, pos, r.pending);
     var turn := OneTurn(source.aead, source.layout, r, s, pos);
     && (read.outcome.Skipped? || source.Unforged(read.index, s[pos + 8..read.next]))
     && NothingForged(source, turn.rcv, s, turn.next))
  }

  lemma SettleAtHead(job: Job, r: Recv)
    requires job.Valid() && r.open && r.phase == Receiving && CountsInv(job, r) && PhaseInv(job, r) && FileInv(job, r)
    ensures AtHead(job, Settle(r))
  {
    StillFile(job, r, Settle(r));
  }

  /** One turn on any bytes: what is read is a frame the transition system allows for. */
  lemma TurnAtHead(job: Job, r: Recv, s: seq<Byte>, pos: nat)
    requires job.Valid() && job.path.Direct? && AtHead(job, r) && r.pending != {} && pos <= |s|
    requires NothingForged(job.source, r, s, pos)
    ensures var turn := OneTurn(job.source.aead, job.Layout(), r, s, pos);
      turn.Turn? ==> AtHead(job, turn.rcv)
  {
    var a, l := job.source.aead, job.Layout();
    var read := ReadFrame(a, MaxPayload(l.chunkSize), s, pos, r.pending);
    if read.Got? {
      ReadIsFrame(a, MaxPayload(l.chunkSize), s, pos, r.pending);
      if read.outcome.Skipped? {
        SettleAtHead(job, r);
      } else {
        var f := Frame(read.index, s[pos + 8..read.next]);
        UnforgedTrusted(job.source, f.index, f.payload);
        OutcomeIsReceive(a, l, r, f);
        ReplyReceiver(job, r, f);
        ReplyCases(job, r, f);
        SettleAtHead(job, DirectReceive(a, l, r, f).rcv);
      }
    }
  }

  lemma {:induction false} StreamKeeps(job: Job, r: Recv, s: seq<Byte>, pos: nat)
    requires job.Valid() && job.path.Direct? && AtHead(job, r) && pos <= |s|
    requires NothingForged(job.source, r, s, pos)
    ensures var t := OnStream(job.source.aead, job.Layout(), r, s, pos);
      AtHead(job, t.rcv) && (t.complete <==> t.rcv.pending == {})
    decreases |s| - pos
  {
    if r.pending != {} {
      TurnAtHead(job, r, s, pos);
      var turn := OneTurn(job.source.aead, job.Layout(), r, s, pos);
      if turn.Turn? {
        StreamKeeps(job, turn.rcv, s, turn.next);
      }
    }
  }

  /** What the receiver holds once nothing is pending. */
  lemma AllReceived(job: Job, r: Recv)
    requires job.Valid() && AtHead(job, r) && r.pending == {}
    ensures Landed(job.Layout(), r) == job.source.file <==> SkippedCorrect(job)
    ensures r.confirmed == job.Layout().totalSize
  {
    AllDone(job, r);
    DoneBytesTotal(job.Layout(), r.done);
    LandedIsSource(job, r);
  }

  /** The receiver when it enters the loop. */
  function Start(job: Job): (r: Recv)
    requires job.Valid()
    ensures Within(job.Layout(), r)
  {
    Init(job).rcv.(open := true)
  }

  /** Direct path, any bytes on the data stream of which nothing the loop opens is forged: wherever the
      loop stops, every chunk it counts as received in this connection is the source's once its write has
      landed, every other chunk of the output is as it was, and the byte count is right; and if it stops
      with nothing pending, the output is the source exactly if the chunks skipped were right. */
  lemma AnyStreamDelivers(job: Job, s: seq<Byte>)
    requires job.Valid() && job.path.Direct? && NothingForged(job.source, Start(job), s, 0)
    ensures var t := OnStream(job.source.aead, job.Layout(), Start(job), s, 0);
      && AtHead(job, t.rcv)
      && (t.complete ==> t.rcv.confirmed == job.Layout().totalSize)
      && (t.complete ==> (Landed(job.Layout(), t.rcv) == job.source.file <==> SkippedCorrect(job)))
  {
    StartAtHead(job);
    StreamKeeps(job, Start(job), s, 0);
    var t := OnStream(job.source.aead, job.Layout(), Start(job), s, 0);
    if t.complete {
      AllReceived(job, t.rcv);
    }
  }

  // ---- The sender's own stream ----

  lemma PayloadOnStream(f: Frame, rest: seq<Byte>, s: seq<Byte>, pos: nat)
    requires pos <= |s| && s[pos..] == FrameBytes(f) + rest
    ensures pos + |FrameBytes(f)| <= |s| && |FrameBytes(f)| == 8 + |f.payload|
    ensures s[pos + 8..pos + |FrameBytes(f)|] == f.payload
  {
    var header := U32(f.index % U32_LIMIT) + U32(|f.payload| % U32_LIMIT);
    ReadOn(s, pos, FrameBytes(f), rest);
    assert s == s[..pos] + header + f.payload + rest;
    SliceInside(s[..pos] + header, f.payload, rest, 0, |f.payload|);
  }

  lemma FrameRead(job: Job, pending: set<nat>, f: Frame, rest: seq<Byte>, s: seq<Byte>, pos: nat)
    requires pos <= |s| && s[pos..] == FrameBytes(f) + rest
    requires FitsHeader(f, MaxPayload(job.Layout().chunkSize)) && Framed(f.payload)
    ensures var read := ReadFrame(job.source.aead, MaxPayload(job.Layout().chunkSize), s, pos, pending);
      && read.Got? && read.index == f.index && pos + 8 <= read.next <= |s| && s[pos + 8..read.next] == f.payload
  {
    PayloadOnStream(f, rest, s, pos);
    ReadOnFrame(job.source.aead, job.Layout(), pending, f, rest, s, pos);
  }

  /** The sender's own frame on the stream: it is read as such, and nothing in it is forged. */
  lemma HonestRead(job: Job, pending: set<nat>, i: nat, rest: seq<Byte>, s: seq<Byte>, pos: nat)
    requires job.Valid() && i < job.Count() && pos <= |s| && job.Layout().Offset(i) <= job.Layout().totalSize
    requires s[pos..] == FrameBytes(job.source.Honest(i)) + rest
    ensures var read := ReadFrame(job.source.aead, MaxPayload(job.Layout().chunkSize), s, pos, pending);
      && read.Got? && read.index == i && pos + 8 <= read.next <= |s|
      && job.source.Unforged(read.index, s[pos + 8..read.next])
  {
    HonestFrameFits(job.source, i);
    HonestUnforged(job.source, i);
    FrameRead(job, pending, job.source.Honest(i), rest, s, pos);
  }

  /** One turn on it, while its chunk is pending: it is accepted. */
  lemma HonestTurn(job: Job, r: Recv, i: nat, rest: seq<Byte>, s: seq<Byte>, pos: nat)
    requires job.Valid() && job.path.Direct? && AtHead(job, r) && i in r.pending && i < job.Count() && pos <= |s|
    requires job.Layout().Offset(i) <= job.Layout().totalSize && s[pos..] == FrameBytes(job.source.Honest(i)) + rest
    ensures var turn := OneTurn(job.source.aead, job.Layout(), r, s, pos);
      && turn.Turn? && s[turn.next..] == rest
      && turn.rcv.pending == r.pending - {i} && AtHead(job, turn.rcv)
  {
    var a, l, f := job.source.aead, job.Layout(), job.source.Honest(i);
    HonestAccepted(job.source, i);
    HonestFrameFits(job.source, i);
    TurnOnFrame(a, l, r, f, rest, s, pos);
    HonestReply(job, r, i);
  }

  lemma HonestReply(job: Job, r: Recv, i: nat)
    requires job.Valid() && job.path.Direct? && AtHead(job, r) && i in r.pending && i < job.Count()
    requires job.Layout().Offset(i) <= job.Layout().totalSize
    ensures var r' := Settle(DirectReceive(job.source.aead, job.Layout(), r, job.source.Honest(i)).rcv);
      AtHead(job, r') && r'.pending == r.pending - {i}
  {
    var f := job.source.Honest(i);
    HonestAccepted(job.source, i);
    ReplyReceiver(job, r, f);
    ReplyCases(job, r, f);
    SettleAtHead(job, DirectReceive(job.source.aead, job.Layout(), r, f).rcv);
  }

  /** The chunks in `todo`, each once. */
  ghost predicate Exactly(pending: set<nat>, todo: seq<nat>) {
    && (forall i: nat :: i in pending <==> i in todo)
    && (forall j, k :: 0 <= j < k < |todo| ==> todo[j] != todo[k])
  }

  lemma OthersPending(pending: set<nat>, todo: seq<nat>)
    requires todo != [] && Exactly(pending, todo)
    ensures todo[0] in pending && Exactly(pending - {todo[0]}, todo[1..])
  {
    forall i: nat
      ensures i in pending - {todo[0]} <==> i in todo[1..]
    {
      assert i in todo <==> i == todo[0] || i in todo[1..];
    }
  }

  lemma {:induction false} HonestRun(job: Job, r: Recv, todo: seq<nat>, s: seq<Byte>, pos: nat)
    requires job.Valid() && job.path.Direct? && AtHead(job, r) && pos <= |s| && L.Chunks(job.source, todo)
    requires Exactly(r.pending, todo)
    requires s[pos..] == StreamBytes(L.Frames(job.source, todo))
    ensures NothingForged(job.source, r, s, pos) && OnStream(job.source.aead, job.Layout(), r, s, pos).complete
    decreases |todo|
  {
    if todo != [] {
      ChunkInside(job.Layout(), todo[0]);
      assert L.Frames(job.source, todo)[1..] == L.Frames(job.source, todo[1..]);
      HonestRead(job, r.pending, todo[0], StreamBytes(L.Frames(job.source, todo[1..])), s, pos);
      HonestTurn(job, r, todo[0], StreamBytes(L.Frames(job.source, todo[1..])), s, pos);
      var turn := OneTurn(job.source.aead, job.Layout(), r, s, pos);
      OthersPending(r.pending, todo);
      HonestRun(job, turn.rcv, todo[1..], s, turn.next);
    } else {
      assert r.pending == {};
    }
  }

  /** For every lawful cipher and every direct transfer: on the stream the sender's loop writes when
      nothing is NACKed, nothing is forged, and the receiver completes. */
  lemma HonestStreamCompletes(job: Job)
    requires job.Valid() && job.path.Direct?
    ensures L.Chunks(job.source, job.Todo())
    ensures var s := StreamBytes(L.Frames(job.source, job.Todo()));
      NothingForged(job.source, Start(job), s, 0) && OnStream(job.source.aead, job.Layout(), Start(job), s, 0).complete
  {
    StartAtHead(job);
    assert forall k :: 0 <= k < |job.Todo()| ==> job.Todo()[k] in job.Todo();
    forall j, k | 0 <= j < k < |job.Todo()|
      ensures job.Todo()[j] != job.Todo()[k]
    {
      MissingAscending(job.Count(), job.skip, j, k);
    }
    var s := StreamBytes(L.Frames(job.source, job.Todo()));
    assert s[0..] == s;
    HonestRun(job, Start(job), job.Todo(), s, 0);
  }

  // ---- The receiver as a whole ----

  lemma Received(job: Job, s: seq<Byte>)
    requires job.Valid() && job.path.Direct? && NothingForged(job.source, Start(job), s, 0)
    ensures var t := OnStream(job.source.aead, job.Layout(), Start(job), s, 0);
      && Within(job.Layout(), t.rcv)
      && (t.complete ==> t.rcv.confirmed == job.Layout().totalSize)
      && (t.complete ==> (Landed(job.Layout(), t.rcv) == job.source.file <==> SkippedCorrect(job)))
  {
    StartAtHead(job);
    StreamKeeps(job, Start(job), s, 0);
    AnyStreamDelivers(job, s);
  }

  /** Where the receiver starts, from the state on disk. */
  function StartFrom(layout: Layout, start: seq<Byte>, done: set<nat>, saved: Option<set<nat>>): (r: Recv)
    requires layout.Valid() && |start| == layout.totalSize
    ensures Within(layout, r)
  {
    Recv(true, Range(layout.chunkCount) - done, done, DoneBytes(layout, done, layout.chunkCount),
         0, 0, false, None, start, saved, Receiving)
  }

  /** The receiver from the data stream to the output file, as the loop on bytes describes it. */
  method ReceiveStream(aead: Aead, layout: Layout, start: seq<Byte>, done: set<nat>, saved: Option<set<nat>>,
                       stream: ByteStream, progress: Counter)
    returns (output: Option<seq<Byte>>)
    requires layout.Valid() && |start| == layout.totalSize && stream.pos == 0
    modifies stream, progress
    ensures var t := OnStream(aead, layout, StartFrom(layout, start, done, saved), stream.data, 0);
      && output.Some? == t.complete
      && (t.complete ==> Within(layout, t.rcv) && output.value == Landed(layout, t.rcv))
      && (t.complete ==> progress.done == t.rcv.confirmed && progress.total == layout.totalSize)
  {
    var receiver := new DirectReceiver(aead, layout, start, done, saved, progress);
    var complete := receiver.Run(stream, progress);
    if !complete {
      return None;
    }
    CompleteIsEmpty(aead, layout, StartFrom(layout, start, done, saved), stream.data, 0);
    var _ := receiver.Conclude();
    output := Some(receiver.file);
  }

  /** Whatever the stream carries, if nothing the receiver opens is forged and it completes, the output is
      the source exactly if the chunks it did not ask for were right. */
  method ReceiveFile(aead: Aead, layout: Layout, start: seq<Byte>, done: set<nat>, saved: Option<set<nat>>,
                     stream: ByteStream, progress: Counter, ghost job: Job)
    returns (output: Option<seq<Byte>>)
    requires job.Valid() && job.path.Direct? && aead == job.source.aead && layout == job.Layout()
    requires start == job.start && done == job.skip && saved == job.kept
    requires stream.pos == 0 && NothingForged(job.source, Start(job), stream.data, 0)
    modifies stream, progress
    ensures output.Some? ==> (output.value == job.source.file <==> SkippedCorrect(job))
    ensures output.Some? ==> progress.done == progress.total == layout.totalSize
  {
    Received(job, stream.data);
    assert StartFrom(layout, start, done, saved) == Start(job);
    output := ReceiveStream(aead, layout, start, done, saved, stream, progress);
  }
}
