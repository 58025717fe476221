/** What the two ends of a transfer may do without regard to each other: the loops of
    p2pshare-core/src/transfer/sender.rs, p2pshare-core/src/transfer/relay_sender.rs and the two receivers
    meet only in the channels between them. */
module Independence {
  import opened Bytes
  import opened Manifest
  import opened Codec
  import opened Wire
  import opened Streaming
  import opened Receiver
  import opened Protocol
  import opened Conservation
  import opened Delivery
  import opened Termination

  // ---- Events at different ends commute ----

  predicate AtSender(e: Event) {
    e.SendNext? || e.Poll? || e.Resend? || e.TakeCtrl?
  }

  predicate AtReceiver(e: Event) {
    e.Open? || e.Take? || e.Stray? || e.Land? || e.Save? || e.Finish?
  }

  /** At a channel's ends: adding at one and removing at the other. */
  lemma EndsApart<T>(channel: seq<T>, more: seq<T>)
    ensures channel != [] ==> (channel + more)[1..] == channel[1..] + more && (channel + more)[0] == channel[0]
  {
  }

  lemma ReceiverStillEnabled(job: Job, s: Sys, e: Event, f: Event)
    requires job.Valid() && Enabled(job, s, e) && Enabled(job, s, f) && AtSender(e) && AtReceiver(f)
    ensures Enabled(job, Step(job, s, e), f)
  {
  }

  lemma SenderStillEnabled(job: Job, s: Sys, e: Event, f: Event)
    requires job.Valid() && Enabled(job, s, e) && Enabled(job, s, f) && AtSender(e) && AtReceiver(f)
    ensures Enabled(job, Step(job, s, f), e)
  {
  }

  /** A state in which the sender has written one more frame. */
  function Written(s: Sys, snd: Sender, g: Frame): Sys {
    s.(snd := snd, data := s.data + [g])
  }

  /** Writing depends on the sender only. */
  lemma WriteMoves(job: Job, s: Sys, t: Sys, e: Event) returns (snd: Sender, g: Frame)
    requires job.Valid() && Enabled(job, s, e) && Enabled(job, t, e) && (e.SendNext? || e.Resend?) && t.snd == s.snd
    ensures Step(job, s, e) == Written(s, snd, g) && Step(job, t, e) == Written(t, snd, g)
  {
    snd, g := Step(job, s, e).snd, Step(job, s, e).data[|s.data|];
  }

  lemma ReadingMoves(job: Job, s: Sys, f: Event, snd: Sender, g: Frame)
    requires job.Valid() && Enabled(job, s, f) && Enabled(job, Written(s, snd, g), f) && (f.Take? || f.Stray?)
    ensures Step(job, Written(s, snd, g), f) == Written(Step(job, s, f), snd, g)
  {
    EndsApart(s.data, [g]);
  }

  lemma ReceiverMoves(job: Job, s: Sys, f: Event, snd: Sender, g: Frame)
    requires job.Valid() && Enabled(job, s, f) && Enabled(job, Written(s, snd, g), f) && AtReceiver(f)
    ensures Step(job, Written(s, snd, g), f) == Written(Step(job, s, f), snd, g)
  {
    if f.Take? || f.Stray? {
      ReadingMoves(job, s, f, snd, g);
    }
  }

  lemma SenderUntouched(job: Job, s: Sys, f: Event)
    requires job.Valid() && Enabled(job, s, f) && AtReceiver(f)
    ensures Step(job, s, f).snd == s.snd
  {
  }

  /** Writing a frame. */
  lemma WriteCommutes(job: Job, s: Sys, e: Event, f: Event)
    requires job.Valid() && Enabled(job, s, e) && Enabled(job, s, f) && (e.SendNext? || e.Resend?) && AtReceiver(f)
    requires Enabled(job, Step(job, s, e), f) && Enabled(job, Step(job, s, f), e)
    ensures Step(job, Step(job, s, e), f) == Step(job, Step(job, s, f), e)
  {
    SenderUntouched(job, s, f);
    var snd, g := WriteMoves(job, s, Step(job, s, f), e);
    ReceiverMoves(job, s, f, snd, g);
  }

  /** Reading a message depends on the sender and the first message. */
  lemma ReadCommutes(job: Job, s: Sys, f: Event)
    requires job.Valid() && Enabled(job, s, TakeCtrl) && Enabled(job, s, f) && AtReceiver(f)
    requires Enabled(job, DoTakeCtrl(job, s), f) && Enabled(job, Step(job, s, f), TakeCtrl)
    ensures Step(job, DoTakeCtrl(job, s), f) == DoTakeCtrl(job, Step(job, s, f))
  {
    SenderUntouched(job, s, f);
    EndsApart(s.ctrl, Step(job, s, f).ctrl[|s.ctrl|..]);
  }

  lemma PollCommutes(job: Job, s: Sys, f: Event)
    requires job.Valid() && Enabled(job, s, Poll) && Enabled(job, s, f) && AtReceiver(f)
    requires Enabled(job, DoPoll(job, s), f) && Enabled(job, Step(job, s, f), Poll)
    ensures Step(job, DoPoll(job, s), f) == DoPoll(job, Step(job, s, f))
  {
    SenderUntouched(job, s, f);
  }

  /** Whatever the sender can do and whatever the receiver can do in a state, neither keeps the other from
      doing it, and in either order they lead to the same state. */
  lemma EndsCommute(job: Job, s: Sys, e: Event, f: Event)
    requires job.Valid() && Enabled(job, s, e) && Enabled(job, s, f) && AtSender(e) && AtReceiver(f)
    ensures Enabled(job, Step(job, s, e), f) && Enabled(job, Step(job, s, f), e)
    ensures Step(job, Step(job, s, e), f) == Step(job, Step(job, s, f), e)
  {
    ReceiverStillEnabled(job, s, e, f);
    SenderStillEnabled(job, s, e, f);
    if e.SendNext? || e.Resend? {
      WriteCommutes(job, s, e, f);
    } else if e.TakeCtrl? {
      ReadCommutes(job, s, f);
    } else {
      PollCommutes(job, s, f);
    }
  }

  lemma SendAndRead(job: Job, s: Sys)
    requires job.Valid() && Enabled(job, s, SendNext) && Enabled(job, s, TakeCtrl)
    ensures Enabled(job, DoSendNext(job, s), TakeCtrl) && Enabled(job, DoTakeCtrl(job, s), SendNext)
    ensures DoTakeCtrl(job, DoSendNext(job, s)) == DoSendNext(job, DoTakeCtrl(job, s))
  {
    var i := job.Todo()[s.snd.next];
    assert i in job.Todo();
    ChunkInside(job.Layout(), i);
  }

  lemma ResendAndRead(job: Job, s: Sys)
    requires job.Valid() && job.path.Direct? && Enabled(job, s, Resend) && Enabled(job, s, TakeCtrl)
    ensures Enabled(job, DoResend(job, s), TakeCtrl) && Enabled(job, DoTakeCtrl(job, s), Resend)
    ensures DoTakeCtrl(job, DoResend(job, s)) == DoResend(job, DoTakeCtrl(job, s))
  {
  }

  /** Nor do the sender's two loops hinder each other: writing a frame and reading a message. */
  lemma LoopsCommute(job: Job, s: Sys, e: Event)
    requires job.Valid() && Enabled(job, s, e) && Enabled(job, s, TakeCtrl)
    requires e.SendNext? || (e.Resend? && job.path.Direct?)
    ensures Enabled(job, Step(job, s, e), TakeCtrl) && Enabled(job, DoTakeCtrl(job, s), e)
    ensures DoTakeCtrl(job, Step(job, s, e)) == Step(job, DoTakeCtrl(job, s), e)
  {
    if e.SendNext? {
      SendAndRead(job, s);
    } else {
      ResendAndRead(job, s);
    }
  }

  // ---- No end waits for the other ----

  /** Every chunk asked for again exists. */
  ghost predicate AskedInv(job: Job, s: Sys) {
    && (forall i :: i in s.snd.queue ==> i < job.Count())
    && (s.snd.held.Some? ==> s.snd.held.value < job.Count())
    && (forall i: nat :: ChunkNack(i) in s.ctrl ==> i < job.Count())
  }

  lemma AskedByReply(job: Job, s: Sys, f: Frame)
    requires job.Valid() && AskedInv(job, s) && Writable(job.Layout(), s.rcv) && f.index < job.Count()
    ensures AskedInv(job, Deliver(job, s, f))
  {
    ChunkInside(job.Layout(), f.index);
    var sent := Receive(job.path, job.source.aead, job.Layout(), s.rcv, f).sent;
    assert forall c :: c in sent && c.ChunkNack? ==> c.index == f.index;
  }

  lemma AskedByMessage(job: Job, s: Sys)
    requires job.Valid() && AskedInv(job, s) && Enabled(job, s, TakeCtrl)
    ensures AskedInv(job, DoTakeCtrl(job, s))
  {
    assert s.ctrl == [s.ctrl[0]] + s.ctrl[1..];
    if s.ctrl[0].ChunkNack? {
      assert ChunkNack(s.ctrl[0].index) in s.ctrl;
    }
  }

  lemma AskedByPoll(job: Job, s: Sys)
    requires job.Valid() && AskedInv(job, s) && Enabled(job, s, Poll)
    ensures AskedInv(job, DoPoll(job, s))
  {
    var queue := s.snd.queue;
    if queue != [] {
      assert queue[0] in queue;
      forall i | i in queue[1..]
        ensures i < job.Count()
      {
        assert i in queue;
      }
      assert DoPoll(job, s).snd == s.snd.(held := Some(queue[0]), queue := queue[1..]);
    }
  }

  lemma AskedStill(job: Job, s: Sys, e: Event)
    requires job.Valid() && AskedInv(job, s) && Enabled(job, s, e)
    requires !e.Take? && !e.Stray? && !e.TakeCtrl? && !e.Poll?
    ensures AskedInv(job, Step(job, s, e))
  {
    assert Step(job, s, e).snd.queue == s.snd.queue;
    if e.Finish? {
      assert forall c :: c in DoFinish(s).ctrl && c.ChunkNack? ==> c in s.ctrl;
    }
  }

  lemma AskedKept(job: Job, s: Sys, e: Event)
    requires job.Valid() && AskedInv(job, s) && Enabled(job, s, e)
    ensures AskedInv(job, Step(job, s, e))
  {
    if e.Take? {
      AskedByReply(job, s.(data := s.data[1..]), s.data[0]);
    } else if e.Stray? {
      AskedByReply(job, s.(astray := true), e.frame);
    } else if e.TakeCtrl? {
      AskedByMessage(job, s);
    } else if e.Poll? {
      AskedByPoll(job, s);
    } else {
      AskedStill(job, s, e);
    }
  }

  lemma {:induction false} AskedAlways(job: Job, es: seq<Event>)
    requires job.Valid() && After(job, es).Some?
    ensures AskedInv(job, After(job, es).value)
  {
    if es != [] {
      AskedAlways(job, es[..|es| - 1]);
      AskedKept(job, After(job, es[..|es| - 1]).value, es[|es| - 1]);
    }
  }

  /** In every run the sender's loops go on whatever the receiver does: the next frame is written without
      waiting for an acknowledgement, a chunk to resend is resent, the NACK channel is looked into, and
      messages are read. */
  lemma SenderGoesOn(job: Job, es: seq<Event>)
    requires job.Valid() && After(job, es).Some?
    ensures var s := After(job, es).value;
      && (s.snd.stage == Writing ==> Enabled(job, s, SendNext))
      && (s.snd.held != None ==> Enabled(job, s, Resend))
      && (s.snd.stage == Polling && s.snd.held == None ==> Enabled(job, s, Poll))
      && (s.snd.queue != [] && s.snd.held == None && s.snd.stage != Writing ==> Enabled(job, s, Poll))
      && (s.ctrl != [] && !s.snd.finished && (job.path.Direct? || s.snd.held == None) ==> Enabled(job, s, TakeCtrl))
  {
    InvAlways(job, es);
    AskedAlways(job, es);
  }

  /** The receiver of a run in step goes on, too, as soon as there is a frame: it does not wait for the
      last chunk to be written. */
  lemma ReceiverGoesOn(job: Job, es: seq<Event>)
    requires job.Valid() && After(job, es).Some? && !After(job, es).value.astray && After(job, es).value.data != []
    ensures var s := After(job, es).value;
      Enabled(job, s, if !s.rcv.open then Open else if s.rcv.saveDue then Save else Take)
  {
    InvAlways(job, es);
    FirstIsPending(job, After(job, es).value);
  }

  /** Saves and background writes can happen at any time, and the way out is open once there is nothing
      left to receive, write or save. */
  lemma ReceiverFinishes(job: Job, es: seq<Event>)
    requires job.Valid() && After(job, es).Some?
    ensures var s := After(job, es).value;
      && (s.rcv.writing != None ==> Enabled(job, s, Land))
      && (s.rcv.saveDue ==> Enabled(job, s, Save))
      && (s.rcv.open && s.rcv.pending == {} && s.rcv.writing == None && !s.rcv.saveDue && s.rcv.phase != Deleted ==>
            Enabled(job, s, Finish))
  {
    InvAlways(job, es);
  }

  // ---- A rejected frame and what becomes of it ----

  lemma Extend(job: Job, es: seq<Event>, e: Event)
    requires job.Valid() && After(job, es).Some? && Enabled(job, After(job, es).value, e)
    ensures After(job, es + [e]) == Some(Step(job, After(job, es).value, e))
  {
    assert (es + [e])[..|es + [e]| - 1] == es;
  }

  lemma {:induction false} RejectedGrows(job: Job, es: seq<Event>, all: seq<Event>)
    requires job.Valid() && es <= all && After(job, all).Some?
    ensures After(job, es).Some? && After(job, es).value.rejected <= After(job, all).value.rejected
    decreases |all|
  {
    if |all| == |es| {
      assert all == es;
    } else {
      RejectedGrows(job, es, all[..|all| - 1]);
    }
  }

  /** The network can give the next frame any payload that is not forged and, on the direct path, keeps
      the receiver in step; the receiver reads it, and if it rejects it, asks for the chunk again. */
  lemma CorruptedTaken(job: Job, es: seq<Event>, payload: seq<Byte>)
    requires job.Valid() && After(job, es).Some? && !After(job, es).value.astray && After(job, es).value.data != []
    requires var s := After(job, es).value;
      s.rcv.open && !s.rcv.saveDue && |payload| == |s.data[0].payload|
      && job.source.Unforged(s.data[0].index, payload) && (job.path.Direct? ==> Framed(payload))
      && Bad(job, Frame(s.data[0].index, payload))
    ensures After(job, es + [Corrupt(0, payload)] + [Take]).Some?
    ensures var s, t := After(job, es).value, After(job, es + [Corrupt(0, payload)] + [Take]).value;
      && t.rcv == s.rcv && t.snd == s.snd && t.data == s.data[1..] && !t.astray
      && t.ctrl == s.ctrl + [ChunkNack(s.data[0].index)] && t.rejected == s.rejected + 1
  {
    var s := After(job, es).value;
    Extend(job, es, Corrupt(0, payload));
    var s1 := DoCorrupt(s, 0, payload);
    InvAlways(job, es + [Corrupt(0, payload)]);
    FirstIsPending(job, s1);
    Extend(job, es + [Corrupt(0, payload)], Take);
    assert s1.data[1..] == s.data[1..];
    ReplyCases(job, s1.rcv, s1.data[0]);
  }

  /** On the direct path it can also make the receiver read any frame that is not forged, at any time; the
      receiver does with it what it does with any frame, and may be out of step from then on. */
  lemma StrayTaken(job: Job, es: seq<Event>, f: Frame)
    requires job.Valid() && job.path.Direct? && After(job, es).Some? && f.index < job.Count()
    requires var r := After(job, es).value.rcv; r.open && !r.saveDue && r.pending != {}
    requires job.source.Unforged(f.index, f.payload)
    ensures After(job, es + [Stray(f)]).Some?
    ensures var s, t := After(job, es).value, After(job, es + [Stray(f)]).value;
      && t.snd == s.snd && t.data == s.data && t.astray
      && Writable(job.Layout(), s.rcv) && t.rcv == DirectReceive(job.source.aead, job.Layout(), s.rcv, f).rcv
      && t.ctrl == s.ctrl + DirectReceive(job.source.aead, job.Layout(), s.rcv, f).sent
  {
    InvAlways(job, es);
    Extend(job, es, Stray(f));
  }

  /** From then on the transfer can still be completed, with that chunk sent once more. */
  lemma RejectedDelivers(job: Job, es: seq<Event>, payload: seq<Byte>) returns (all: seq<Event>)
    requires job.Valid() && After(job, es).Some? && !After(job, es).value.astray && After(job, es).value.data != []
    requires var s := After(job, es).value;
      s.rcv.open && !s.rcv.saveDue && |payload| == |s.data[0].payload|
      && job.source.Unforged(s.data[0].index, payload) && (job.path.Direct? ==> Framed(payload))
      && Bad(job, Frame(s.data[0].index, payload))
    ensures es + [Corrupt(0, payload)] + [Take] <= all && After(job, all).Some? && Final(After(job, all).value)
    ensures After(job, all).value.rejected > After(job, es).value.rejected
    ensures After(job, all).value.rcv.file == job.source.file <==> SkippedCorrect(job)
  {
    CorruptedTaken(job, es, payload);
    InvAlways(job, es);
    FirstIsPending(job, After(job, es).value);
    var now := es + [Corrupt(0, payload)] + [Take];
    assert After(job, es).value.data[0].index in job.Todo();
    all := CanFinish(job, now);
    RejectedGrows(job, now, all);
    DeliveredExactlyIf(job, all);
  }

  /** Such runs exist: on the relay path, for every cipher and every transfer with a chunk to send. */
  lemma SomeRunRejects(job: Job) returns (all: seq<Event>)
    requires job.Valid() && job.path.Relay? && job.Todo() != []
    ensures After(job, all).Some? && Final(After(job, all).value) && After(job, all).value.rejected >= 1
    ensures After(job, all).value.rcv.file == job.source.file <==> SkippedCorrect(job)
  {
    var i := job.Todo()[0];
    assert i in job.Todo();
    ChunkInside(job.Layout(), i);
    assert After(job, []) == Some(Init(job));
    Extend(job, [], SendNext);
    var s := After(job, [] + [SendNext]).value;
    assert s.data == [job.source.Honest(i)];
    EncodedChunkFits(job.source.aead, i, job.source.Chunk(i), job.Layout().chunkSize);
    BlankRejected(job.source, i, |s.data[0].payload|);
    all := RejectedDelivers(job, [] + [SendNext], seq(|s.data[0].payload|, _ => 0));
  }
}
