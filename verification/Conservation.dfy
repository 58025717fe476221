/** The invariants of the transfer. The central one: the chunks to send, the frames and NACKs in
    flight, the chunks queued or held for retransmission and the accepted chunks are together, as a
    multiset, always the chunks there were to send. Everything else rests on it. */
module Conservation {
  import opened Bytes
  import opened Manifest
  import opened Wire
  import opened Streaming
  import opened Codec
  import opened Receiver
  import opened Protocol

  // ---- Where a chunk can be ----

  function Indices(fs: seq<Frame>): multiset<nat> {
    if fs == [] then multiset{} else multiset{fs[0].index} + Indices(fs[1..])
  }

  /** How many NACKs for chunk `i` are among the messages. */
  function Nacked(cs: seq<Ctrl>, i: nat): nat {
    if cs == [] then 0 else (if cs[0] == ChunkNack(i) then 1 else 0) + Nacked(cs[1..], i)
  }

  function Held(h: Option<nat>): multiset<nat> {
    if h.Some? then multiset{h.value} else multiset{}
  }

  function Unsent(todo: seq<nat>, next: nat): multiset<nat> {
    if next <= |todo| then multiset(todo[next..]) else multiset{}
  }

  /** How often chunk `i` is on its way: counted over every place but "accepted". */
  ghost function Underway(job: Job, s: Sys, i: nat): nat {
    Unsent(job.Todo(), s.snd.next)[i] + Indices(s.data)[i] + Nacked(s.ctrl, i)
    + multiset(s.snd.queue)[i] + Held(s.snd.held)[i]
  }

  /** Whether chunk `i` was accepted in this run. */
  ghost function Accepted(job: Job, r: Recv, i: nat): nat {
    if i in r.done && i !in job.skip then 1 else 0
  }

  /** As multisets: the chunks underway and the accepted ones are the chunks to send. */
  ghost predicate Conserved(job: Job, s: Sys) {
    forall i: nat :: Balanced(job, s, i)
  }

  ghost predicate Balanced(job: Job, s: Sys, i: nat) {
    Underway(job, s, i) + Accepted(job, s.rcv, i) == multiset(job.Todo())[i]
  }

  // ---- Sender ----

  ghost predicate SenderInv(job: Job, s: Sys) {
    var n := |job.Todo()|;
    && s.snd.next <= n
    && (s.snd.stage == Writing ==> s.snd.next < n)
    && (s.snd.stage == Serving || s.snd.stage == Ended ==> s.snd.next == n)
    && (job.path.Direct? && s.snd.stage == Writing ==> s.snd.held == None)
    && (job.path.Direct? && s.snd.stage == Ended ==> s.snd.finished && s.snd.queue == [] && s.snd.held == None)
    && (job.path.Relay? ==> s.snd.queue == [] && (s.snd.stage == Writing || s.snd.stage == Ended))
  }

  // ---- Frames in flight ----

  ghost predicate FrameInv(job: Job, f: Frame)
    requires job.Valid()
  {
    && job.source.Trusted(f)
    && FitsHeader(f, MaxPayload(job.Layout().chunkSize))
    && (job.path.Direct? ==> Framed(f.payload))
  }

  ghost predicate FramesInv(job: Job, s: Sys)
    requires job.Valid()
  {
    forall k :: 0 <= k < |s.data| ==> FrameInv(job, s.data[k])
  }

  // ---- Receiver ----

  /** Among others: the state file lists chunks that are done, unless it is still the one the
      connection started from. */
  ghost predicate CountsInv(job: Job, r: Recv)
    requires job.Valid()
  {
    && job.skip <= r.done <= Range(job.Count())
    && r.pending == Range(job.Count()) - r.done
    && r.confirmed == DoneBytes(job.Layout(), r.done, job.Count())
    && (r.saved.Some? ==> r.saved.value <= r.done || r.saved == job.kept)
  }

  ghost predicate PhaseInv(job: Job, r: Recv) {
    && (r.phase != Receiving ==> r.pending == {} && r.writing == None && !r.saveDue)
    && (r.phase == Saved || r.phase == Completed ==> r.saved == Some(r.done))
    && (r.phase == Deleted ==> r.saved == None)
    && (!r.open ==> job.path.Direct? && r.done == job.skip && r.phase == Receiving && r.writing == None && !r.saveDue)
  }

  /** What chunk `i` of the output must hold: the source's chunk if it was received in this run, and
      otherwise what was there. */
  ghost function Expected(job: Job, done: set<nat>, i: nat): seq<Byte>
    requires job.Valid() && i < job.Count()
  {
    ChunkInside(job.Layout(), i);
    if i in done && i !in job.skip then job.source.Chunk(i) else Region(job.Layout(), job.start, i)
  }

  ghost predicate HoldsAt(job: Job, done: set<nat>, file: seq<Byte>, i: nat)
    requires job.Valid() && i < job.Count() && |file| == job.Layout().totalSize
  {
    ChunkInside(job.Layout(), i);
    Region(job.Layout(), file, i) == Expected(job, done, i)
  }

  /** The chunk being written was received in this run; the output still has what was there before. */
  ghost predicate WritingInv(job: Job, r: Recv)
    requires job.Valid()
  {
    && Writable(job.Layout(), r)
    && (r.writing.Some? ==>
          var w := r.writing.value;
          && job.path.Direct? && w.index in r.done - job.skip
          && w.data == Expected(job, r.done, w.index)
          && Region(job.Layout(), r.file, w.index) == Region(job.Layout(), job.start, w.index))
  }

  ghost predicate FileInv(job: Job, r: Recv)
    requires job.Valid()
  {
    && WritingInv(job, r)
    && (forall i: nat :: i < job.Count() ==> HoldsAt(job, r.done, Landed(job.Layout(), r), i))
  }

  ghost predicate Inv(job: Job, s: Sys)
    requires job.Valid()
  {
    && SenderInv(job, s)
    && FramesInv(job, s)
    && CountsInv(job, s.rcv)
    && PhaseInv(job, s.rcv)
    && FileInv(job, s.rcv)
    && (if s.astray then job.path.Direct? else Conserved(job, s))
  }

  // ---- Multisets of frames and messages ----

  lemma {:induction false} IndicesAppend(fs: seq<Frame>, f: Frame)
    ensures Indices(fs + [f]) == Indices(fs) + multiset{f.index}
  {
    if fs == [] {
      assert fs + [f] == [f];
    } else {
      IndicesAppend(fs[1..], f);
      assert (fs + [f])[1..] == fs[1..] + [f];
    }
  }

  lemma {:induction false} IndicesUpdate(fs: seq<Frame>, k: nat, f: Frame)
    requires k < |fs| && fs[k].index == f.index
    ensures Indices(fs[k := f]) == Indices(fs)
  {
    if k == 0 {
      assert fs[0 := f][1..] == fs[1..];
    } else {
      IndicesUpdate(fs[1..], k - 1, f);
      assert fs[k := f][1..] == fs[1..][k - 1 := f];
    }
  }

  lemma {:induction false} NackedConcat(cs: seq<Ctrl>, ds: seq<Ctrl>, i: nat)
    ensures Nacked(cs + ds, i) == Nacked(cs, i) + Nacked(ds, i)
    decreases |cs|
  {
    if cs == [] {
      assert cs + ds == ds;
    } else {
      NackedConcat(cs[1..], ds, i);
      assert (cs + ds)[1..] == cs[1..] + ds;
    }
  }

  lemma MultisetTail<T>(s: seq<T>, k: nat)
    requires k < |s|
    ensures multiset(s[k..]) == multiset{s[k]} + multiset(s[k + 1..])
  {
    assert s[k..] == [s[k]] + s[k + 1..];
  }

  // ---- Consequences of conservation ----

  /** A chunk that is underway is still pending at the receiver. */
  lemma UnderwayIsPending(job: Job, s: Sys, i: nat)
    requires job.Valid() && Conserved(job, s) && CountsInv(job, s.rcv) && Underway(job, s, i) > 0
    ensures i in s.rcv.pending && i in job.Todo() && i < job.Count()
  {
    assert Balanced(job, s, i);
    assert i in multiset(job.Todo());
  }

  /** Unless the receiver went astray: every chunk there is to send is in exactly one place, exactly
      once; a skipped chunk is nowhere. */
  lemma ExactlyOnePlace(job: Job, s: Sys, i: nat)
    requires job.Valid() && Inv(job, s) && !s.astray && i < job.Count()
    ensures i !in job.skip ==> Underway(job, s, i) + (if i in s.rcv.done then 1 else 0) == 1
    ensures i in job.skip ==> Underway(job, s, i) == 0
  {
    assert Balanced(job, s, i);
    assert i in job.Todo() <==> i in multiset(job.Todo());
  }

  // ---- The invariant holds at the start ----

  lemma InitInv(job: Job)
    requires job.Valid()
    ensures Inv(job, Init(job))
  {
    var s := Init(job);
    var todo := job.Todo();
    assert todo[0..] == todo;
    assert Landed(job.Layout(), s.rcv) == job.start;
  }

  // ---- Every event keeps the sender's part ----

  lemma SenderKept(job: Job, s: Sys, e: Event)
    requires job.Valid() && SenderInv(job, s) && Enabled(job, s, e)
    ensures SenderInv(job, Step(job, s, e))
  {
  }

  // ---- Every event keeps the frames in flight trustworthy ----

  lemma HonestFrameInv(job: Job, i: nat)
    requires job.Valid() && i < job.Count()
    ensures job.Layout().Offset(i) <= job.Layout().totalSize && FrameInv(job, job.source.Honest(i))
  {
    HonestAccepted(job.source, i);
    HonestFrameFits(job.source, i);
  }

  lemma CorruptFrameInv(job: Job, f: Frame, payload: seq<Byte>)
    requires job.Valid() && FrameInv(job, f) && |payload| == |f.payload|
    requires job.source.Unforged(f.index, payload) && (job.path.Direct? ==> Framed(payload))
    ensures FrameInv(job, f.(payload := payload))
  {
    UnforgedTrusted(job.source, f.index, payload);
  }

  lemma FramesKept(job: Job, s: Sys, e: Event)
    requires job.Valid() && SenderInv(job, s) && FramesInv(job, s) && Enabled(job, s, e)
    ensures FramesInv(job, Step(job, s, e))
  {
    match e {
      case SendNext =>
        assert job.Todo()[s.snd.next] in job.Todo();
        HonestFrameInv(job, job.Todo()[s.snd.next]);
      case Resend =>
        HonestFrameInv(job, s.snd.held.value);
      case Corrupt(k, payload) =>
        assert FrameInv(job, s.data[k]);
        CorruptFrameInv(job, s.data[k], payload);
      case Take =>
      case _ =>
    }
  }

  // ---- Every event conserves the chunks ----

  lemma UnsentToData(todo: seq<nat>, next: nat, data: seq<Frame>, f: Frame, i: nat)
    requires next < |todo| && f.index == todo[next]
    ensures Unsent(todo, next + 1)[i] + Indices(data + [f])[i] == Unsent(todo, next)[i] + Indices(data)[i]
  {
    IndicesAppend(data, f);
    MultisetTail(todo, next);
  }

  lemma SendNextConserves(job: Job, s: Sys, i: nat)
    requires job.Valid() && SenderInv(job, s) && Enabled(job, s, SendNext)
    ensures Balanced(job, s, i) ==> Balanced(job, DoSendNext(job, s), i)
  {
    var next := job.Todo()[s.snd.next];
    assert next in job.Todo();
    ChunkInside(job.Layout(), next);
    UnsentToData(job.Todo(), s.snd.next, s.data, job.source.Honest(next), i);
    assert Underway(job, DoSendNext(job, s), i) == Underway(job, s, i);
  }

  lemma HeldToData(held: nat, data: seq<Frame>, f: Frame, i: nat)
    requires f.index == held
    ensures Held(None)[i] + Indices(data + [f])[i] == Held(Some(held))[i] + Indices(data)[i]
  {
    IndicesAppend(data, f);
  }

  lemma ResendConserves(job: Job, s: Sys, i: nat)
    requires job.Valid() && Enabled(job, s, Resend)
    ensures Balanced(job, s, i) ==> Balanced(job, DoResend(job, s), i)
  {
    ChunkInside(job.Layout(), s.snd.held.value);
    HeldToData(s.snd.held.value, s.data, job.source.Honest(s.snd.held.value), i);
  }

  lemma QueueToHeld(queue: seq<nat>, i: nat)
    requires queue != []
    ensures multiset(queue[1..])[i] + Held(Some(queue[0]))[i] == multiset(queue)[i] + Held(None)[i]
  {
    MultisetTail(queue, 0);
    assert queue[0..] == queue;
  }

  lemma PollConserves(job: Job, s: Sys, i: nat)
    requires job.Valid() && Enabled(job, s, Poll)
    ensures Balanced(job, s, i) ==> Balanced(job, DoPoll(job, s), i)
  {
    if s.snd.queue != [] {
      QueueToHeld(s.snd.queue, i);
    }
  }

  lemma NackToQueue(ctrl: seq<Ctrl>, queue: seq<nat>, i: nat)
    requires ctrl != []
    ensures ctrl[0].ChunkNack? ==>
      multiset(queue + [ctrl[0].index])[i] + Nacked(ctrl[1..], i) == multiset(queue)[i] + Nacked(ctrl, i)
    ensures ctrl[0].ChunkNack? ==>
      Held(Some(ctrl[0].index))[i] + Nacked(ctrl[1..], i) == Held(None)[i] + Nacked(ctrl, i)
    ensures !ctrl[0].ChunkNack? ==> Nacked(ctrl[1..], i) == Nacked(ctrl, i)
  {
  }

  lemma TakeCtrlConserves(job: Job, s: Sys, i: nat)
    requires job.Valid() && Enabled(job, s, TakeCtrl)
    ensures Balanced(job, s, i) ==> Balanced(job, DoTakeCtrl(job, s), i)
  {
    NackToQueue(s.ctrl, s.snd.queue, i);
    assert Underway(job, DoTakeCtrl(job, s), i) == Underway(job, s, i);
  }

  // ---- Accepting a chunk ----

  /** A frame the receiver may come across: trustworthy, and on the relay path of a pending chunk. */
  ghost predicate Due(job: Job, r: Recv, f: Frame)
    requires job.Valid()
  {
    job.source.Trusted(f) && (job.path.Direct? || f.index in r.pending)
  }

  /** What a frame leads to: nothing if its chunk is not pending, and otherwise a NACK and nothing
      else, or the acceptance of the source's chunk. */
  lemma ReplyCases(job: Job, r: Recv, f: Frame)
    requires job.Valid() && Due(job, r, f) && CountsInv(job, r) && Writable(job.Layout(), r)
    ensures var reply := Receive(job.path, job.source.aead, job.Layout(), r, f);
      && job.Layout().Offset(f.index) + |job.source.Chunk(f.index)| <= job.Layout().totalSize
      && |job.source.Chunk(f.index)| == job.Layout().Size(f.index) > 0
      && if f.index !in r.pending then reply == Reply(r, [])
         else if Verdict(job.source.aead, job.Layout(), f) == None then reply == Reply(r, [ChunkNack(f.index)])
         else reply == if job.path.Direct? then DirectAccept(job.Layout(), r, f.index, job.source.Chunk(f.index))
                       else RelayAccept(job.Layout(), r, f.index, job.source.Chunk(f.index))
  {
    ChunkInside(job.Layout(), f.index);
  }

  /** The receiver's reply moves the frame's chunk either to the accepted ones or into a NACK. */
  lemma ReplyConserves(job: Job, r: Recv, f: Frame, i: nat)
    requires job.Valid() && Due(job, r, f) && CountsInv(job, r) && Writable(job.Layout(), r)
    requires f.index in r.pending
    ensures var reply := Receive(job.path, job.source.aead, job.Layout(), r, f);
      Accepted(job, reply.rcv, i) + Nacked(reply.sent, i) == Accepted(job, r, i) + if i == f.index then 1 else 0
  {
    ReplyCases(job, r, f);
  }

  lemma FirstIsPending(job: Job, s: Sys)
    requires job.Valid() && CountsInv(job, s.rcv) && Conserved(job, s) && s.data != []
    ensures s.data[0].index in s.rcv.pending && s.data[0].index < job.Count()
  {
    UnderwayIsPending(job, s, s.data[0].index);
  }

  lemma TakeConserves(job: Job, s: Sys, i: nat)
    requires job.Valid() && FramesInv(job, s) && CountsInv(job, s.rcv) && Conserved(job, s) && Enabled(job, s, Take)
    ensures Balanced(job, DoTake(job, s), i)
  {
    var f := s.data[0];
    assert FrameInv(job, f);
    FirstIsPending(job, s);
    ReplyConserves(job, s.rcv, f, i);
    NackedConcat(s.ctrl, Receive(job.path, job.source.aead, job.Layout(), s.rcv, f).sent, i);
    assert Balanced(job, s, i);
  }

  lemma CorruptConserves(job: Job, s: Sys, k: nat, payload: seq<Byte>, i: nat)
    requires k < |s.data|
    ensures Balanced(job, s, i) ==> Balanced(job, DoCorrupt(s, k, payload), i)
  {
    IndicesUpdate(s.data, k, s.data[k].(payload := payload));
  }

  lemma NackedOther(cs: seq<Ctrl>, c: Ctrl, i: nat)
    requires !c.ChunkNack?
    ensures Nacked(cs + [c], i) == Nacked(cs, i)
  {
    NackedConcat(cs, [c], i);
  }

  /** Events that touch neither the frames, nor the sender, nor what is done, move no chunk. */
  lemma StillBalanced(job: Job, s: Sys, s': Sys, i: nat)
    requires s'.snd == s.snd && s'.data == s.data && Nacked(s'.ctrl, i) == Nacked(s.ctrl, i)
    requires s'.rcv.done == s.rcv.done
    requires Balanced(job, s, i)
    ensures Balanced(job, s', i)
  {
  }

  lemma SenderConserves(job: Job, s: Sys, e: Event)
    requires job.Valid() && SenderInv(job, s) && Conserved(job, s)
    requires Enabled(job, s, e) && (e.SendNext? || e.Poll? || e.Resend? || e.TakeCtrl?)
    ensures Conserved(job, Step(job, s, e))
  {
    match e {
      case SendNext => forall i: nat { SendNextConserves(job, s, i); }
      case Poll => forall i: nat { PollConserves(job, s, i); }
      case Resend => forall i: nat { ResendConserves(job, s, i); }
      case TakeCtrl => forall i: nat { TakeCtrlConserves(job, s, i); }
    }
  }

  lemma ReceiverConserves(job: Job, s: Sys, e: Event)
    requires job.Valid() && FramesInv(job, s) && CountsInv(job, s.rcv) && Conserved(job, s)
    requires Enabled(job, s, e) && (e.Take? || e.Corrupt?)
    ensures Conserved(job, Step(job, s, e))
  {
    match e {
      case Take => forall i: nat { TakeConserves(job, s, i); }
      case Corrupt(k, payload) => forall i: nat { CorruptConserves(job, s, k, payload, i); }
    }
  }

  lemma OtherConserves(job: Job, s: Sys, e: Event)
    requires job.Valid() && Conserved(job, s)
    requires Enabled(job, s, e) && (e.Open? || e.Land? || e.Save? || e.Finish?)
    ensures Conserved(job, Step(job, s, e))
  {
    var s' := Step(job, s, e);
    assert s.ctrl + [] == s.ctrl;
    forall i: nat
      ensures Balanced(job, s', i)
    {
      NackedOther(s.ctrl, Complete, i);
      StillBalanced(job, s, s', i);
    }
  }

  lemma ConservedKept(job: Job, s: Sys, e: Event)
    requires job.Valid() && SenderInv(job, s) && FramesInv(job, s) && CountsInv(job, s.rcv) && Conserved(job, s)
    requires Enabled(job, s, e) && !e.Stray?
    ensures Conserved(job, Step(job, s, e))
  {
    if e.SendNext? || e.Poll? || e.Resend? || e.TakeCtrl? {
      SenderConserves(job, s, e);
    } else if e.Take? || e.Corrupt? {
      ReceiverConserves(job, s, e);
    } else {
      OtherConserves(job, s, e);
    }
  }

  // ---- Every event keeps the receiver's part ----

  lemma AcceptedCounts(job: Job, r: Recv, r': Recv, i: nat)
    requires job.Valid() && CountsInv(job, r) && i in r.pending && job.Layout().Offset(i) <= job.Layout().totalSize
    requires r'.done == r.done + {i} && r'.pending == r.pending - {i} && r'.saved == r.saved
    requires r'.confirmed == r.confirmed + job.Layout().Size(i)
    ensures CountsInv(job, r')
  {
    DoneBytesInsert(job.Layout(), r.done, i, job.Count());
  }

  lemma ReplyCounts(job: Job, r: Recv, f: Frame)
    requires job.Valid() && Due(job, r, f) && CountsInv(job, r) && Writable(job.Layout(), r)
    ensures CountsInv(job, Receive(job.path, job.source.aead, job.Layout(), r, f).rcv)
  {
    ReplyCases(job, r, f);
    if f.index in r.pending && Verdict(job.source.aead, job.Layout(), f).Some? {
      AcceptedCounts(job, r, Receive(job.path, job.source.aead, job.Layout(), r, f).rcv, f.index);
    }
  }

  lemma AcceptFile(job: Job, r: Recv, r': Recv, i: nat)
    requires job.Valid() && FileInv(job, r) && i < job.Count() && i !in r.done && i !in job.skip
    requires job.Layout().Offset(i) <= job.Layout().totalSize && Writable(job.Layout(), r')
    requires r'.done == r.done + {i} && WritingInv(job, r')
    requires job.Layout().Offset(i) + |job.source.Chunk(i)| <= job.Layout().totalSize
    requires Landed(job.Layout(), r') == WriteAt(job.Layout(), Landed(job.Layout(), r), i, job.source.Chunk(i))
    ensures FileInv(job, r')
  {
    var l := job.Layout();
    forall j: nat | j < job.Count()
      ensures HoldsAt(job, r'.done, Landed(l, r'), j)
    {
      WriteAtRegions(l, Landed(l, r), i, job.source.Chunk(i), j);
      assert HoldsAt(job, r.done, Landed(l, r), j);
    }
  }

  /** Writing an accepted chunk, at once or in the background, leaves every chunk as expected. */
  lemma ReplyFile(job: Job, r: Recv, f: Frame)
    requires job.Valid() && Due(job, r, f) && CountsInv(job, r) && FileInv(job, r)
    requires job.path.Relay? ==> r.writing == None
    ensures FileInv(job, Receive(job.path, job.source.aead, job.Layout(), r, f).rcv)
  {
    ReplyCases(job, r, f);
    if f.index in r.pending && Verdict(job.source.aead, job.Layout(), f).Some? {
      assert HoldsAt(job, r.done, Landed(job.Layout(), r), f.index);
      AcceptFile(job, r, Receive(job.path, job.source.aead, job.Layout(), r, f).rcv, f.index);
    }
  }

  lemma TakeDue(job: Job, s: Sys)
    requires job.Valid() && Inv(job, s) && Enabled(job, s, Take)
    ensures Due(job, s.rcv, s.data[0]) && s.data[0].index in s.rcv.pending
  {
    FirstIsPending(job, s);
    assert FrameInv(job, s.data[0]);
  }

  lemma StrayDue(job: Job, s: Sys, f: Frame)
    requires job.Valid() && Enabled(job, s, Stray(f))
    ensures Due(job, s.rcv, f)
  {
    UnforgedTrusted(job.source, f.index, f.payload);
  }

  /** Every frame keeps the receiver's part. */
  lemma ReplyReceiver(job: Job, r: Recv, f: Frame)
    requires job.Valid() && Due(job, r, f) && Reads(job, r) && CountsInv(job, r) && PhaseInv(job, r) && FileInv(job, r)
    ensures var r' := Receive(job.path, job.source.aead, job.Layout(), r, f).rcv;
      CountsInv(job, r') && PhaseInv(job, r') && FileInv(job, r')
  {
    ReplyCounts(job, r, f);
    ReplyFile(job, r, f);
    ReplyCases(job, r, f);
  }

  lemma StillFile(job: Job, r: Recv, r': Recv)
    requires job.Valid() && FileInv(job, r) && WritingInv(job, r')
    requires r'.done == r.done && Landed(job.Layout(), r') == Landed(job.Layout(), r)
    ensures FileInv(job, r')
  {
    forall i: nat | i < job.Count()
      ensures HoldsAt(job, r'.done, Landed(job.Layout(), r'), i)
    {
      assert HoldsAt(job, r.done, Landed(job.Layout(), r), i);
    }
  }

  lemma OtherReceiver(job: Job, s: Sys, e: Event)
    requires job.Valid() && CountsInv(job, s.rcv) && PhaseInv(job, s.rcv) && FileInv(job, s.rcv)
    requires Enabled(job, s, e) && !e.Take? && !e.Stray?
    ensures var r' := Step(job, s, e).rcv; CountsInv(job, r') && PhaseInv(job, r') && FileInv(job, r')
  {
    if e.Land? || e.Save? || e.Finish? || e.Open? {
      StillFile(job, s.rcv, Step(job, s, e).rcv);
    } else {
      assert Step(job, s, e).rcv == s.rcv;
    }
  }

  lemma ReceiverKept(job: Job, s: Sys, e: Event)
    requires job.Valid() && Inv(job, s) && Enabled(job, s, e)
    ensures var r' := Step(job, s, e).rcv; CountsInv(job, r') && PhaseInv(job, r') && FileInv(job, r')
  {
    if e.Take? {
      TakeDue(job, s);
      ReplyReceiver(job, s.rcv, s.data[0]);
    } else if e.Stray? {
      StrayDue(job, s, e.frame);
      ReplyReceiver(job, s.rcv, e.frame);
    } else {
      OtherReceiver(job, s, e);
    }
  }

  lemma InvKept(job: Job, s: Sys, e: Event)
    requires job.Valid() && Inv(job, s) && Enabled(job, s, e)
    ensures Inv(job, Step(job, s, e))
  {
    SenderKept(job, s, e);
    FramesKept(job, s, e);
    if !s.astray && !e.Stray? {
      ConservedKept(job, s, e);
    }
    ReceiverKept(job, s, e);
  }

  /** Every state of every run satisfies the invariant. */
  lemma {:induction false} InvAlways(job: Job, es: seq<Event>)
    requires job.Valid() && After(job, es).Some?
    ensures Inv(job, After(job, es).value)
  {
    if es == [] {
      InitInv(job);
    } else {
      InvAlways(job, es[..|es| - 1]);
      InvKept(job, After(job, es[..|es| - 1]).value, es[|es| - 1]);
    }
  }
}
