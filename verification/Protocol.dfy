/** The transfer as a transition system: the send loop and the control loop of the sender
    (p2pshare-core/src/transfer/sender.rs, p2pshare-core/src/transfer/relay_sender.rs), two ordered
    channels, an adversary that rewrites payloads, and the receiver. One machine serves both paths;
    the events say where they differ. */
module Protocol {
  import opened Bytes
  import opened Manifest
  import opened Codec
  import opened Wire
  import opened Streaming
  import opened Receiver

  /** Everything a run keeps fixed: the path, what is sent, and the receiver's disk when the chunk
      loop starts: the output file, the chunks the sender was told to skip, and the state file, if there
      is one. A state file found without its output file is there, but nothing is skipped for it. */
  datatype Job = Job(path: Path, source: Source, start: seq<Byte>, skip: set<nat>, kept: Option<set<nat>>) {
    ghost predicate Valid() {
      && source.Valid()
      && |start| == source.layout.totalSize
      && skip <= Range(source.layout.chunkCount)
      && (skip == {} || kept == Some(skip))
      && (kept.Some? ==> kept.value <= Range(source.layout.chunkCount))
    }

    function Layout(): Layout { source.layout }

    function Count(): nat { source.layout.chunkCount }

    /** The chunks to send, in order. */
    function Todo(): seq<nat> { Missing(Count(), skip) }
  }

  function Missing(n: nat, skip: set<nat>): (s: seq<nat>)
    ensures forall i: nat :: i in s <==> i < n && i !in skip
    ensures forall i: nat :: multiset(s)[i] <= 1
  {
    if n == 0 then
      []
    else if n - 1 in skip then Missing(n - 1, skip)
    else
      var s := Missing(n - 1, skip);
      assert n - 1 !in multiset(s);
      s + [n - 1]
  }

  /** They come in ascending order. */
  lemma {:induction false} MissingAscending(n: nat, skip: set<nat>, j: nat, k: nat)
    requires j < k < |Missing(n, skip)|
    ensures Missing(n, skip)[j] < Missing(n, skip)[k]
  {
    var rest := Missing(n - 1, skip);
    if k < |rest| {
      MissingAscending(n - 1, skip, j, k);
    } else {
      assert rest[j] in rest;
    }
  }

  /** The send loop: about to write the next frame, looking for NACKs without waiting (direct only),
      waiting for NACKs (direct only), or returned. */
  datatype Stage = Writing | Polling | Serving | Ended

  /** `queue` is the NACK channel between the two loops (direct only); `held` is a chunk being
      retransmitted: by the send loop on the direct path, by the control loop on the relay path;
      `finished` says that the control loop has seen Complete and returned. */
  datatype Sender = Sender(next: nat, stage: Stage, queue: seq<nat>, held: Option<nat>, finished: bool,
                           bar: nat, framesSent: nat)

  /** `astray` says that a length or a header on the data stream was corrupted, so that the direct
      receiver no longer knows where frames begin. `hits`, `rejected` and `acks` only record history:
      payloads rewritten, frames NACKed, Progress messages sent. */
  datatype Sys = Sys(snd: Sender, data: seq<Frame>, ctrl: seq<Ctrl>, rcv: Recv, astray: bool,
                     hits: nat, rejected: nat, acks: nat)

  datatype Event =
    | SendNext
    | Poll
    | Resend
    | TakeCtrl
    | Corrupt(k: nat, payload: seq<Byte>)
    | Open
    | Take
    | Stray(frame: Frame)
    | Land
    | Save
    | Finish

  /** The sender's and receiver's state when both enter their loops. */
  function Init(job: Job): Sys
    requires job.source.layout.Valid()
  {
    var idle := if job.path.Direct? then Serving else Ended;
    var done := DoneBytes(job.Layout(), job.skip, job.Count());
    Sys(Sender(0, if job.Todo() == [] then idle else Writing, [], None, false, done, 0),
        [], [],
        Recv(job.path.Relay?, Range(job.Count()) - job.skip, job.skip, done, 0, 0, false, None,
             job.start, job.kept, Receiving),
        false, 0, 0, 0)
  }

  /** The receiver is at the head of its loop, which it does not leave yet. */
  ghost predicate Reads(job: Job, r: Recv) {
    r.open && r.phase == Receiving && !r.saveDue && r.pending != {} && Writable(job.Layout(), r)
  }

  ghost predicate Enabled(job: Job, s: Sys, e: Event)
    requires job.Valid()
  {
    match e
    case SendNext =>
      s.snd.stage == Writing && s.snd.next < |job.Todo()|
    case Poll =>
      && job.path.Direct? && s.snd.held.None?
      && (s.snd.stage == Polling || (s.snd.stage == Serving && (s.snd.queue != [] || s.snd.finished)))
    case Resend =>
      s.snd.held.Some? && s.snd.held.value < job.Count()
    case TakeCtrl =>
      s.ctrl != [] && !s.snd.finished && (job.path.Relay? ==> s.snd.held.None?)
    case Corrupt(k, payload) =>
      && k < |s.data| && |payload| == |s.data[k].payload|
      && job.source.Unforged(s.data[k].index, payload)
      && (job.path.Direct? ==> Framed(payload))
    case Open =>
      !s.rcv.open && s.data != []
    case Take =>
      && Reads(job, s.rcv) && !s.astray
      && s.data != [] && s.data[0].index < job.Count()
    case Stray(f) =>
      && job.path.Direct? && Reads(job, s.rcv)
      && f.index < job.Count() && job.source.Unforged(f.index, f.payload)
    case Land =>
      s.rcv.writing.Some? && Writable(job.Layout(), s.rcv)
    case Save =>
      s.rcv.saveDue
    case Finish =>
      && s.rcv.open && s.rcv.phase != Deleted
      && (s.rcv.phase == Receiving ==> s.rcv.pending == {} && s.rcv.writing.None? && !s.rcv.saveDue)
  }

  function Push(s: Sys, f: Frame): Sys {
    s.(data := s.data + [f], snd := s.snd.(framesSent := s.snd.framesSent + 1))
  }

  /** The next frame of the initial pass. */
  function DoSendNext(job: Job, s: Sys): Sys
    requires job.Valid() && Enabled(job, s, SendNext)
  {
    var i := job.Todo()[s.snd.next];
    assert i in job.Todo();
    ChunkInside(job.Layout(), i);
    var sent := Push(s, job.source.Honest(i));
    var next := s.snd.next + 1;
    sent.(snd := sent.snd.(next := next,
                           stage := if job.path.Direct? then Polling
                                    else if next < |job.Todo()| then Writing else Ended))
  }

  /** The direct send loop looks into the NACK channel: a NACK is picked up for retransmission;
      if there is none, the loop goes on to the next frame, to waiting, or, once the control loop
      has closed the channel, to its end. */
  function DoPoll(job: Job, s: Sys): Sys
    requires job.Valid() && Enabled(job, s, Poll)
  {
    s.(snd :=
      if s.snd.queue != [] then s.snd.(held := Some(s.snd.queue[0]), queue := s.snd.queue[1..])
      else if s.snd.stage == Serving then s.snd.(stage := Ended)
      else s.snd.(stage := if s.snd.next < |job.Todo()| then Writing else Serving))
  }

  function DoResend(job: Job, s: Sys): Sys
    requires job.Valid() && Enabled(job, s, Resend)
  {
    ChunkInside(job.Layout(), s.snd.held.value);
    var sent := Push(s, job.source.Honest(s.snd.held.value));
    sent.(snd := sent.snd.(held := None))
  }

  /** What the control loop does with a message. */
  function OnCtrl(path: Path, totalSize: nat, snd: Sender, c: Ctrl): Sender {
    match c
    case Progress(bytes) => snd.(bar := bytes)
    case ChunkNack(i) => if path.Direct? then snd.(queue := snd.queue + [i]) else snd.(held := Some(i))
    case Complete => snd.(bar := totalSize, finished := true)
  }

  /** The control loop reads one message. */
  function DoTakeCtrl(job: Job, s: Sys): Sys
    requires job.Valid() && Enabled(job, s, TakeCtrl)
  {
    s.(ctrl := s.ctrl[1..], snd := OnCtrl(job.path, job.Layout().totalSize, s.snd, s.ctrl[0]))
  }

  /** The network delivers another payload under the same frame header. */
  function DoCorrupt(s: Sys, k: nat, payload: seq<Byte>): Sys
    requires k < |s.data|
  {
    s.(data := s.data[k := s.data[k].(payload := payload)], hits := s.hits + 1)
  }

  /** The receiver reads frame `f`. */
  function Deliver(job: Job, s: Sys, f: Frame): Sys
    requires job.source.layout.Valid() && Writable(job.Layout(), s.rcv) && f.index < job.Count()
  {
    var reply := Receive(job.path, job.source.aead, job.Layout(), s.rcv, f);
    s.(ctrl := s.ctrl + reply.sent, rcv := reply.rcv,
       rejected := s.rejected + if reply.sent != [] && reply.sent[0].ChunkNack? then 1 else 0,
       acks := s.acks + if reply.sent != [] && reply.sent[0].Progress? then 1 else 0)
  }

  function DoTake(job: Job, s: Sys): Sys
    requires job.Valid() && Enabled(job, s, Take)
  {
    Deliver(job, s.(data := s.data[1..]), s.data[0])
  }

  /** Once astray, the direct receiver reads whatever the bytes in front of it happen to be as a frame. */
  function DoStray(job: Job, s: Sys, f: Frame): Sys
    requires job.Valid() && Enabled(job, s, Stray(f))
  {
    Deliver(job, s.(astray := true), f)
  }

  function DoFinish(s: Sys): Sys {
    s.(rcv := NextPhase(s.rcv).rcv, ctrl := s.ctrl + NextPhase(s.rcv).sent)
  }

  function Step(job: Job, s: Sys, e: Event): Sys
    requires job.Valid() && Enabled(job, s, e)
  {
    match e
    case SendNext => DoSendNext(job, s)
    case Poll => DoPoll(job, s)
    case Resend => DoResend(job, s)
    case TakeCtrl => DoTakeCtrl(job, s)
    case Corrupt(k, payload) => DoCorrupt(s, k, payload)
    case Open => s.(rcv := s.rcv.(open := true))
    case Take => DoTake(job, s)
    case Stray(f) => DoStray(job, s, f)
    case Land => s.(rcv := s.rcv.(file := Landed(job.Layout(), s.rcv), writing := None))
    case Save => s.(rcv := s.rcv.(saved := Some(s.rcv.done), saveDue := false, sinceSave := 0))
    case Finish => DoFinish(s)
  }

  /** The state after the events `es` from the start of the job, if they can happen in this order. */
  ghost function After(job: Job, es: seq<Event>): Option<Sys>
    requires job.Valid()
  {
    if es == [] then Some(Init(job))
    else
      var e := es[|es| - 1];
      match After(job, es[..|es| - 1])
      case None => None
      case Some(s) => if Enabled(job, s, e) then Some(Step(job, s, e)) else None
  }

  /** The frames the receiver read in the run `es`. */
  ghost function Taken(job: Job, es: seq<Event>): seq<Frame>
    requires job.Valid() && After(job, es).Some?
  {
    if es == [] then []
    else
      var front := es[..|es| - 1];
      Taken(job, front) +
      match es[|es| - 1]
        case Take => [After(job, front).value.data[0]]
        case Stray(f) => [f]
        case _ => []
  }
}
