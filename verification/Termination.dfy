/** Every run ends, and where it ends the transfer is over: a measure decreases with every event but
    a corruption, and only a finished transfer has no event left. All of it as long as the direct
    receiver is in step with the data stream. */
module Termination {
  import opened Bytes
  import opened Manifest
  import opened Wire
  import opened Receiver
  import opened Protocol
  import opened Conservation
  import opened Delivery

  /** The receiver will reject this frame. */
  ghost predicate Bad(job: Job, f: Frame)
    requires job.Valid()
  {
    f.index < job.Count() && (ChunkInside(job.Layout(), f.index); Verdict(job.source.aead, job.Layout(), f) == None)
  }

  ghost function BadFrames(job: Job, fs: seq<Frame>): nat
    requires job.Valid()
  {
    if fs == [] then 0 else (if Bad(job, fs[0]) then 1 else 0) + BadFrames(job, fs[1..])
  }

  function Nacks(cs: seq<Ctrl>): nat {
    if cs == [] then 0 else (if cs[0].ChunkNack? then 1 else 0) + Nacks(cs[1..])
  }

  function One(b: bool): nat {
    if b then 1 else 0
  }

  function StageWeight(stage: Stage): nat {
    match stage
    case Writing => 2
    case Polling => 3
    case Serving => 1
    case Ended => 0
  }

  function PhaseWeight(phase: Phase): nat {
    match phase
    case Receiving => 4
    case Saved => 3
    case Completed => 1
    case Deleted => 0
  }

  function SenderWeight(n: nat, snd: Sender): int {
    6 * (n - snd.next) + StageWeight(snd.stage) + 6 * |snd.queue| + 5 * One(snd.held.Some?)
  }

  function ReceiverWeight(r: Recv): nat {
    One(!r.open) + One(r.writing.Some?) + One(r.saveDue) + PhaseWeight(r.phase)
  }

  ghost function DataWeight(job: Job, fs: seq<Frame>): nat
    requires job.Valid()
  {
    4 * |fs| + 4 * BadFrames(job, fs)
  }

  function CtrlWeight(cs: seq<Ctrl>): nat {
    |cs| + 6 * Nacks(cs)
  }

  /** An upper bound on the events still to come, corruptions aside. */
  ghost function Measure(job: Job, s: Sys): int
    requires job.Valid()
  {
    SenderWeight(|job.Todo()|, s.snd) + DataWeight(job, s.data) + CtrlWeight(s.ctrl) + ReceiverWeight(s.rcv)
  }

  // ---- The measure, event by event ----

  lemma {:induction false} BadAppend(job: Job, fs: seq<Frame>, f: Frame)
    requires job.Valid()
    ensures BadFrames(job, fs + [f]) == BadFrames(job, fs) + One(Bad(job, f))
  {
    if fs == [] {
      assert fs + [f] == [f];
    } else {
      BadAppend(job, fs[1..], f);
      assert (fs + [f])[1..] == fs[1..] + [f];
    }
  }

  lemma {:induction false} BadUpdate(job: Job, fs: seq<Frame>, k: nat, f: Frame)
    requires job.Valid() && k < |fs|
    ensures BadFrames(job, fs[k := f]) + One(Bad(job, fs[k])) == BadFrames(job, fs) + One(Bad(job, f))
  {
    if k == 0 {
      assert fs[0 := f][1..] == fs[1..];
    } else {
      BadUpdate(job, fs[1..], k - 1, f);
      assert fs[k := f][1..] == fs[1..][k - 1 := f];
    }
  }

  lemma {:induction false} NacksConcat(cs: seq<Ctrl>, ds: seq<Ctrl>)
    ensures Nacks(cs + ds) == Nacks(cs) + Nacks(ds)
  {
    if cs == [] {
      assert cs + ds == ds;
    } else {
      NacksConcat(cs[1..], ds);
      assert (cs + ds)[1..] == cs[1..] + ds;
    }
  }

  lemma HonestNotBad(job: Job, i: nat)
    requires job.Valid() && i < job.Count()
    ensures job.Layout().Offset(i) <= job.Layout().totalSize && !Bad(job, job.source.Honest(i))
  {
    HonestAccepted(job.source, i);
  }

  lemma AcceptWeight(job: Job, r: Recv, i: nat, p: seq<Byte>)
    requires job.source.layout.Valid() && Writable(job.Layout(), r)
    requires job.Layout().Offset(i) + |p| <= job.Layout().totalSize
    requires !r.saveDue
    ensures var reply := AcceptReply(job, r, i, p);
      ReceiverWeight(reply.rcv) + CtrlWeight(reply.sent) < ReceiverWeight(r) + 4
  {
    assert Nacks([Progress(r.confirmed + |p|)]) == 0;
  }

  lemma TakeWeight(job: Job, s: Sys)
    requires job.Valid() && Inv(job, s) && Enabled(job, s, Take)
    ensures Measure(job, DoTake(job, s)) < Measure(job, s)
    ensures DoTake(job, s).rejected + BadFrames(job, DoTake(job, s).data) == s.rejected + BadFrames(job, s.data)
    ensures Nacks(DoTake(job, s).ctrl) - Nacks(s.ctrl) == DoTake(job, s).rejected - s.rejected
  {
    var f := s.data[0];
    TakeDue(job, s);
    ReplyCases(job, s.rcv, f);
    NacksConcat(s.ctrl, Receive(job.path, job.source.aead, job.Layout(), s.rcv, f).sent);
    if Verdict(job.source.aead, job.Layout(), f) != None {
      AcceptWeight(job, s.rcv, f.index, job.source.Chunk(f.index));
    }
  }

  lemma SendWeight(job: Job, s: Sys, e: Event)
    requires job.Valid() && SenderInv(job, s) && Enabled(job, s, e) && (e.SendNext? || e.Resend?)
    ensures Measure(job, Step(job, s, e)) < Measure(job, s)
    ensures BadFrames(job, Step(job, s, e).data) == BadFrames(job, s.data)
  {
    if e.SendNext? {
      var i := job.Todo()[s.snd.next];
      assert i in job.Todo();
      HonestNotBad(job, i);
      BadAppend(job, s.data, job.source.Honest(i));
    } else {
      HonestNotBad(job, s.snd.held.value);
      BadAppend(job, s.data, job.source.Honest(s.snd.held.value));
    }
  }

  lemma PollWeight(job: Job, s: Sys)
    requires job.Valid() && SenderInv(job, s) && Enabled(job, s, Poll)
    ensures Measure(job, DoPoll(job, s)) < Measure(job, s)
  {
  }

  lemma TakeCtrlWeight(job: Job, s: Sys)
    requires job.Valid() && SenderInv(job, s) && Enabled(job, s, TakeCtrl)
    ensures Measure(job, DoTakeCtrl(job, s)) < Measure(job, s)
  {
  }

  lemma FinishWeight(job: Job, s: Sys)
    requires job.Valid() && Enabled(job, s, Finish)
    ensures Measure(job, DoFinish(s)) < Measure(job, s)
  {
    NacksConcat(s.ctrl, [Complete]);
    assert s.ctrl + [] == s.ctrl;
  }

  lemma CorruptWeight(job: Job, s: Sys, k: nat, payload: seq<Byte>)
    requires job.Valid() && k < |s.data|
    ensures Measure(job, DoCorrupt(s, k, payload)) <= Measure(job, s) + 4
  {
    BadUpdate(job, s.data, k, s.data[k].(payload := payload));
  }

  /** Every event but a corruption lowers the measure; a corruption raises it by at most four. */
  lemma MeasureFalls(job: Job, s: Sys, e: Event)
    requires job.Valid() && Inv(job, s) && Enabled(job, s, e) && !e.Stray?
    ensures !e.Corrupt? ==> Measure(job, Step(job, s, e)) < Measure(job, s)
    ensures e.Corrupt? ==> Measure(job, Step(job, s, e)) <= Measure(job, s) + 4
  {
    match e {
      case SendNext => SendWeight(job, s, e);
      case Resend => SendWeight(job, s, e);
      case Poll => PollWeight(job, s);
      case TakeCtrl => TakeCtrlWeight(job, s);
      case Take => TakeWeight(job, s);
      case Corrupt(k, payload) => CorruptWeight(job, s, k, payload);
      case Finish => FinishWeight(job, s);
      case _ =>
    }
  }

  lemma MeasureBounds(job: Job, s: Sys)
    requires job.Valid() && SenderInv(job, s)
    ensures 0 <= Measure(job, s)
  {
  }

  /** A run in which the receiver stays in step, of any interleaving, has at most 6n + 7 events and five
      more for every corruption, where n is the number of chunks to send. */
  lemma {:induction false} RunsAreBounded(job: Job, es: seq<Event>)
    requires job.Valid() && After(job, es).Some? && !After(job, es).value.astray
    ensures |es| + Measure(job, After(job, es).value) <= 6 * |job.Todo()| + 7 + 5 * After(job, es).value.hits
    ensures |es| <= 6 * |job.Todo()| + 7 + 5 * After(job, es).value.hits
  {
    InvAlways(job, es);
    MeasureBounds(job, After(job, es).value);
    if es != [] {
      var front := es[..|es| - 1];
      InStepBefore(job, After(job, front).value, es[|es| - 1]);
      RunsAreBounded(job, front);
      InvAlways(job, front);
      MeasureFalls(job, After(job, front).value, es[|es| - 1]);
    }
  }

  /** What is in step now was in step before. */
  lemma InStepBefore(job: Job, s: Sys, e: Event)
    requires job.Valid() && Enabled(job, s, e) && !Step(job, s, e).astray
    ensures !s.astray && !e.Stray?
    ensures Step(job, s, e).hits == s.hits + One(e.Corrupt?)
  {
  }

  // ---- No deadlock ----

  /** Both ends have returned without error and nothing is left in flight. */
  ghost predicate Final(s: Sys) {
    s.snd.finished && s.snd.stage == Ended && s.rcv.phase == Deleted && s.data == [] && s.ctrl == []
  }

  /** The direct receiver waits for the data stream, which appears with its first bytes. */
  ghost predicate StreamOpens(job: Job) {
    job.path.Direct? ==> job.Todo() != []
  }

  /** Until the direct receiver has accepted the data stream, frames are only in flight. */
  ghost predicate UnopenedInv(job: Job, s: Sys) {
    !s.rcv.open ==> s.ctrl == [] && s.snd.queue == [] && s.snd.held == None && !s.snd.finished
  }

  lemma UnopenedKept(job: Job, s: Sys, e: Event)
    requires job.Valid() && PhaseInv(job, s.rcv) && UnopenedInv(job, s) && Enabled(job, s, e)
    ensures UnopenedInv(job, Step(job, s, e))
  {
  }

  lemma {:induction false} UnopenedAlways(job: Job, es: seq<Event>)
    requires job.Valid() && After(job, es).Some?
    ensures UnopenedInv(job, After(job, es).value)
  {
    if es != [] {
      UnopenedAlways(job, es[..|es| - 1]);
      InvAlways(job, es[..|es| - 1]);
      UnopenedKept(job, After(job, es[..|es| - 1]).value, es[|es| - 1]);
    }
  }

  lemma ReceiverCanAct(job: Job, s: Sys) returns (e: Event)
    requires job.Valid() && Inv(job, s) && !s.astray && s.rcv.phase == Receiving
    requires (s.data != [] || (s.rcv.open && s.rcv.pending == {}))
    ensures Enabled(job, s, e) && !e.Corrupt? && !e.Stray?
  {
    if s.rcv.saveDue {
      return Save;
    }
    if s.rcv.writing.Some? {
      return Land;
    }
    if s.data != [] {
      FirstIsPending(job, s);
      return if s.rcv.open then Take else Open;
    }
    return Finish;
  }

  lemma SenderCanAct(job: Job, s: Sys) returns (e: Event)
    requires job.Valid() && Inv(job, s) && !s.astray
    requires s.snd.held.Some? || s.snd.queue != [] || s.snd.stage == Writing || s.snd.stage == Polling
          || (s.snd.stage == Serving && s.snd.finished)
          || (s.ctrl != [] && !s.snd.finished)
    ensures Enabled(job, s, e) && !e.Corrupt? && !e.Stray?
  {
    if s.snd.held.Some? {
      assert Held(s.snd.held)[s.snd.held.value] == 1;
      UnderwayIsPending(job, s, s.snd.held.value);
      return Resend;
    }
    if s.ctrl != [] && !s.snd.finished {
      return TakeCtrl;
    }
    if s.snd.stage == Writing {
      return SendNext;
    }
    return Poll;
  }

  /** With no chunk underway, all of them are accepted. */
  lemma NothingUnderway(job: Job, s: Sys)
    requires job.Valid() && Inv(job, s) && !s.astray
    requires s.data == [] && s.ctrl == [] && s.snd.queue == [] && s.snd.held == None && s.snd.next == |job.Todo()|
    ensures s.rcv.pending == {}
  {
    forall i: nat | i < job.Count()
      ensures i !in s.rcv.pending
    {
      ExactlyOnePlace(job, s, i);
    }
  }

  lemma PendingEmptyNoFrames(job: Job, s: Sys)
    requires job.Valid() && Inv(job, s) && !s.astray && s.rcv.pending == {}
    ensures s.data == [] && s.snd.queue == [] && s.snd.held == None && s.snd.next == |job.Todo()|
  {
    if s.data != [] {
      FirstIsPending(job, s);
    }
    if s.snd.queue != [] {
      assert s.snd.queue[0] in multiset(s.snd.queue);
      UnderwayIsPending(job, s, s.snd.queue[0]);
    }
    if s.snd.held.Some? {
      assert Held(s.snd.held)[s.snd.held.value] == 1;
      UnderwayIsPending(job, s, s.snd.held.value);
    }
    if s.snd.next < |job.Todo()| {
      MultisetTail(job.Todo(), s.snd.next);
      UnderwayIsPending(job, s, job.Todo()[s.snd.next]);
    }
  }

  /** In any reachable state of a transfer that is not over, some component can act. */
  lemma NoDeadlock(job: Job, es: seq<Event>) returns (e: Event)
    requires job.Valid() && StreamOpens(job) && After(job, es).Some? && !Final(After(job, es).value)
    requires !After(job, es).value.astray
    ensures Enabled(job, After(job, es).value, e) && !e.Corrupt? && !e.Stray?
  {
    InvAlways(job, es);
    ReportsAlways(job, es);
    UnopenedAlways(job, es);
    var s := After(job, es).value;
    if s.snd.held.Some? || s.snd.queue != [] || s.snd.stage == Writing || s.snd.stage == Polling
       || (s.snd.stage == Serving && s.snd.finished) || (s.ctrl != [] && !s.snd.finished) {
      e := SenderCanAct(job, s);
    } else if s.rcv.phase == Receiving {
      if s.data == [] {
        NothingUnderway(job, s);
        OpenedOnceReceived(job, s);
      }
      e := ReceiverCanAct(job, s);
    } else if s.rcv.phase != Deleted {
      e := Finish;
    } else {
      PendingEmptyNoFrames(job, s);
      assert false;
    }
  }

  /** If everything has been received, the stream was accepted, unless there was nothing to receive. */
  lemma OpenedOnceReceived(job: Job, s: Sys)
    requires job.Valid() && StreamOpens(job) && Inv(job, s) && s.rcv.pending == {}
    ensures s.rcv.open
  {
    if job.path.Direct? {
      var i := job.Todo()[0];
      assert i in job.Todo();
      assert i in Range(job.Count()) && i in s.rcv.done;
    }
  }

  /** From any reachable state the transfer can be brought to its end; with the bound on runs, it
      always gets there. */
  lemma {:induction false} CanFinish(job: Job, es: seq<Event>) returns (all: seq<Event>)
    requires job.Valid() && StreamOpens(job) && After(job, es).Some? && !After(job, es).value.astray
    ensures es <= all && After(job, all).Some? && Final(After(job, all).value)
    decreases Measure(job, After(job, es).value) + 1
  {
    var s := After(job, es).value;
    InvAlways(job, es);
    MeasureBounds(job, s);
    if Final(s) {
      return es;
    }
    var e := NoDeadlock(job, es);
    var longer := es + [e];
    assert longer[..|longer| - 1] == es;
    InvAlways(job, longer);
    MeasureBounds(job, After(job, longer).value);
    MeasureFalls(job, s, e);
    all := CanFinish(job, longer);
  }

  // ---- A direct transfer of no chunk ----

  /** A direct transfer with nothing to send never gets past waiting for the data stream. */
  lemma {:induction false} EmptyDirectStuck(job: Job, es: seq<Event>)
    requires job.Valid() && !StreamOpens(job) && After(job, es).Some?
    ensures var s := After(job, es).value; !s.rcv.open && !s.astray && s.rcv.phase == Receiving
  {
    InvAlways(job, es);
    if es != [] {
      var front := es[..|es| - 1];
      EmptyDirectStuck(job, front);
      InvAlways(job, front);
      var s := After(job, front).value;
      forall i: nat
        ensures i !in s.rcv.pending
      {
        assert i !in job.Todo();
      }
      PendingEmptyNoFrames(job, s);
    }
  }

  /** Exactly the transfers with a chunk to send, and every relay transfer, can be completed. */
  lemma CompletesExactlyIf(job: Job)
    requires job.Valid()
    ensures (exists es :: After(job, es).Some? && Final(After(job, es).value)) <==> StreamOpens(job)
  {
    if StreamOpens(job) {
      var es := CanFinish(job, []);
    } else {
      forall es | After(job, es).Some?
        ensures !Final(After(job, es).value)
      {
        EmptyDirectStuck(job, es);
      }
    }
  }

  // ---- How many frames are sent ----

  ghost predicate FrameCountInv(job: Job, s: Sys)
    requires job.Valid()
  {
    && s.snd.framesSent + Nacks(s.ctrl) + |s.snd.queue| + One(s.snd.held.Some?) == s.snd.next + s.rejected
    && s.rejected + BadFrames(job, s.data) <= s.hits
  }

  lemma ControlFrameCount(job: Job, s: Sys, e: Event)
    requires job.Valid() && FrameCountInv(job, s) && Enabled(job, s, e) && (e.Poll? || e.TakeCtrl?)
    ensures FrameCountInv(job, Step(job, s, e))
  {
  }

  lemma ReceiverFrameCount(job: Job, s: Sys, e: Event)
    requires job.Valid() && FrameCountInv(job, s) && Enabled(job, s, e)
    requires e.Open? || e.Land? || e.Save? || e.Finish?
    ensures FrameCountInv(job, Step(job, s, e))
  {
    var s' := Step(job, s, e);
    assert s'.snd == s.snd && s'.data == s.data && s'.rejected == s.rejected && s'.hits == s.hits;
    if e.Finish? {
      NacksConcat(s.ctrl, NextPhase(s.rcv).sent);
    }
  }

  lemma FrameCountKept(job: Job, s: Sys, e: Event)
    requires job.Valid() && Inv(job, s) && FrameCountInv(job, s) && Enabled(job, s, e) && !e.Stray?
    ensures FrameCountInv(job, Step(job, s, e))
  {
    match e {
      case SendNext => SendWeight(job, s, e);
      case Resend => SendWeight(job, s, e);
      case Take => TakeWeight(job, s);
      case Corrupt(k, payload) => BadUpdate(job, s.data, k, s.data[k].(payload := payload));
      case Poll => ControlFrameCount(job, s, e);
      case TakeCtrl => ControlFrameCount(job, s, e);
      case _ => ReceiverFrameCount(job, s, e);
    }
  }

  lemma {:induction false} FrameCountAlways(job: Job, es: seq<Event>)
    requires job.Valid() && After(job, es).Some? && !After(job, es).value.astray
    ensures FrameCountInv(job, After(job, es).value)
  {
    if es != [] {
      FrameCountAlways(job, es[..|es| - 1]);
      InvAlways(job, es[..|es| - 1]);
      FrameCountKept(job, After(job, es[..|es| - 1]).value, es[|es| - 1]);
    }
  }

  /** A finished transfer has sent one frame for every chunk to send and one for every rejected
      frame, and no more frames were rejected than corrupted. */
  lemma FramesSent(job: Job, es: seq<Event>)
    requires job.Valid() && After(job, es).Some? && Final(After(job, es).value) && !After(job, es).value.astray
    ensures var s := After(job, es).value;
      s.snd.framesSent == |job.Todo()| + s.rejected && s.rejected <= s.hits
  {
    InvAlways(job, es);
    FrameCountAlways(job, es);
    PendingEmptyNoFrames(job, After(job, es).value);
  }
}
