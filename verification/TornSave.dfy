/** The state saved by p2pshare-core/src/transfer/receiver.rs:275-281 while the chunk just counted is
    still being written in the background: when it happens, and what it leads to. */
module TornSave {
  import opened Bytes
  import opened Manifest
  import opened Wire
  import opened Receiver
  import opened Protocol
  import opened Conservation
  import opened Delivery
  import opened Recovery

  /** A direct transfer with at least as many chunks to send as lie between two saves. */
  ghost predicate Long(job: Job) {
    job.Valid() && job.path.Direct? && |job.Todo()| >= SAVE_INTERVAL
  }

  /** Send a chunk, find no NACK, receive it; the first time, accept the stream in between. */
  function Cycle(k: nat): seq<Event> {
    Put(k) + [Poll, Take]
  }

  ghost predicate Quiet(s: Sys) {
    s.snd.queue == [] && s.snd.held == None && !s.astray && s.rcv.phase == Receiving
  }

  function StageAt(job: Job, k: nat): Stage {
    if k < |job.Todo()| then Writing else Serving
  }

  /** `k` chunks sent and received without a hitch; the last one is being written. */
  ghost predicate Smooth(job: Job, s: Sys, k: nat) {
    && k <= |job.Todo()| && Quiet(s) && s.data == []
    && s.snd.next == k && s.snd.stage == StageAt(job, k)
    && s.rcv.open == (k > 0) && s.rcv.sinceSave == k && s.rcv.saveDue == (k == SAVE_INTERVAL)
    && (k > 0 ==> s.rcv.writing.Some? && s.rcv.writing.value.index == job.Todo()[k - 1])
  }

  /** The next chunk is in flight, alone, with the send loop at `stage`. */
  ghost predicate InFlight(job: Job, s: Sys, k: nat, stage: Stage, open: bool)
    requires Long(job)
  {
    && k < |job.Todo()| && Quiet(s)
    && job.Layout().Offset(job.Todo()[k]) <= job.Layout().totalSize
    && s.data == [job.source.Honest(job.Todo()[k])]
    && s.snd.next == k + 1 && s.snd.stage == stage
    && s.rcv.open == open && s.rcv.sinceSave == k && !s.rcv.saveDue
  }

  lemma Extend(job: Job, es: seq<Event>, e: Event)
    requires job.Valid() && After(job, es).Some? && Enabled(job, After(job, es).value, e)
    ensures After(job, es + [e]) == Some(Step(job, After(job, es).value, e))
  {
    var all := es + [e];
    assert all[..|all| - 1] == es;
  }

  lemma SendStep(job: Job, es: seq<Event>, k: nat)
    requires Long(job) && k < SAVE_INTERVAL && After(job, es).Some? && Smooth(job, After(job, es).value, k)
    ensures After(job, es + [SendNext]).Some?
    ensures InFlight(job, After(job, es + [SendNext]).value, k, Polling, k > 0)
  {
    assert job.Todo()[k] in job.Todo();
    ChunkInside(job.Layout(), job.Todo()[k]);
    Extend(job, es, SendNext);
  }

  lemma OpenStep(job: Job, es: seq<Event>, k: nat)
    requires Long(job) && After(job, es).Some? && InFlight(job, After(job, es).value, k, Polling, false)
    ensures After(job, es + [Open]).Some? && InFlight(job, After(job, es + [Open]).value, k, Polling, true)
  {
    Extend(job, es, Open);
  }

  lemma PollStep(job: Job, es: seq<Event>, k: nat)
    requires Long(job) && After(job, es).Some? && InFlight(job, After(job, es).value, k, Polling, true)
    ensures After(job, es + [Poll]).Some? && InFlight(job, After(job, es + [Poll]).value, k, StageAt(job, k + 1), true)
  {
    Extend(job, es, Poll);
  }

  lemma TakeStep(job: Job, es: seq<Event>, k: nat)
    requires Long(job) && k < SAVE_INTERVAL
    requires After(job, es).Some? && InFlight(job, After(job, es).value, k, StageAt(job, k + 1), true)
    ensures After(job, es + [Take]).Some? && Smooth(job, After(job, es + [Take]).value, k + 1)
  {
    var s := After(job, es).value;
    InvAlways(job, es);
    FirstIsPending(job, s);
    HonestAccepted(job.source, job.Todo()[k]);
    Extend(job, es, Take);
  }

  function Put(k: nat): seq<Event> {
    if k == 0 then [SendNext, Open] else [SendNext]
  }

  lemma PutStep(job: Job, es: seq<Event>, k: nat)
    requires Long(job) && k < SAVE_INTERVAL && After(job, es).Some? && Smooth(job, After(job, es).value, k)
    ensures After(job, es + Put(k)).Some? && InFlight(job, After(job, es + Put(k)).value, k, Polling, true)
  {
    SendStep(job, es, k);
    if k == 0 {
      OpenStep(job, es + [SendNext], k);
      assert es + [SendNext] + [Open] == es + Put(k);
    }
  }

  lemma SmoothStep(job: Job, es: seq<Event>, k: nat)
    requires Long(job) && k < SAVE_INTERVAL && After(job, es).Some? && Smooth(job, After(job, es).value, k)
    ensures After(job, es + Cycle(k)).Some? && Smooth(job, After(job, es + Cycle(k)).value, k + 1)
  {
    PutStep(job, es, k);
    PollStep(job, es + Put(k), k);
    TakeStep(job, es + Put(k) + [Poll], k);
    assert es + Put(k) + [Poll] + [Take] == es + Cycle(k);
  }

  lemma {:induction false} SmoothRun(job: Job, k: nat) returns (es: seq<Event>)
    requires Long(job) && k <= SAVE_INTERVAL
    ensures After(job, es).Some? && Smooth(job, After(job, es).value, k)
  {
    if k == 0 {
      es := [];
    } else {
      es := SmoothRun(job, k - 1);
      SmoothStep(job, es, k - 1);
      es := es + Cycle(k - 1);
    }
  }

  /** The sixteenth chunk is counted, its write started, and the state saved with it. */
  const TORN: nat := SAVE_INTERVAL - 1

  /** Every direct transfer of sixteen chunks or more, fresh or resumed, has a run without any corruption
      in which the sixteenth is saved while it is being written. */
  lemma SavedWhileWriting(job: Job) returns (es: seq<Event>)
    requires Long(job)
    ensures After(job, es).Some? && WritingSaved(job, After(job, es).value.rcv)
    ensures After(job, es).value.rcv.writing.value.index == job.Todo()[TORN]
  {
    es := SmoothRun(job, SAVE_INTERVAL);
    InvAlways(job, es);
    Extend(job, es, Save);
    es := es + [Save];
  }

  /** A set of elements of a sequence is no larger than the sequence. */
  lemma {:induction false} NoMoreThan(a: set<nat>, todo: seq<nat>)
    requires forall i :: i in a ==> i in todo
    ensures |a| <= |todo|
    decreases |todo|
  {
    if todo != [] {
      var last := todo[|todo| - 1];
      NoMoreThan(a - {last}, todo[..|todo| - 1]);
    }
  }

  /** With fewer than sixteen chunks to send, no chunk is saved while it is being written. */
  lemma ShortNeverTorn(source: Source, disk: Disk, es: seq<Event>)
    requires source.Valid() && WellFormed(source.layout, disk) && !Stale(disk)
    requires var job := Connect(Direct, source, disk);
      job.Valid() && |job.Todo()| < SAVE_INTERVAL && After(job, es).Some?
    ensures var job := Connect(Direct, source, disk); !WritingSaved(job, After(job, es).value.rcv)
  {
    var job := Connect(Direct, source, disk);
    InvAlways(job, es);
    var r := After(job, es).value.rcv;
    if r.writing.Some? {
      NoMoreThan(r.done - job.skip, job.Todo());
      NotSavedBefore(job, es);
    }
  }

  /** Direct path, for every disk a transfer can be resumed from, or none: all crashes of all runs leave
      every saved chunk right exactly if fewer than sixteen chunks are to be sent. */
  lemma AllDirectCrashesSafeExactlyIf(source: Source, disk: Disk)
    requires source.Valid() && WellFormed(source.layout, disk) && !Stale(disk) && Wrong(source, disk) == {}
    requires Connect(Direct, source, disk).Valid()
    ensures AllCrashesSafe(Connect(Direct, source, disk)) <==> |Connect(Direct, source, disk).Todo()| < 16
  {
    var job := Connect(Direct, source, disk);
    if |job.Todo()| < SAVE_INTERVAL {
      forall es, file | Crashes(job, es, file)
        ensures CrashSafe(job, es, file)
      {
        ShortNeverTorn(source, disk, es);
        DirectCrashSafeExactlyIf(source, disk, es);
      }
    } else {
      var es := SavedWhileWriting(job);
      var file := TornWrite(job, es);
    }
  }

  /** In particular a crash before anything of the sixteenth chunk has reached the disk: that chunk and no
      other is then wrong, unless the output happened to hold its bytes already. */
  lemma UnstartedWrite(source: Source, disk: Disk) returns (es: seq<Event>)
    requires source.Valid() && WellFormed(source.layout, disk) && !Stale(disk) && Wrong(source, disk) == {}
    requires Long(Connect(Direct, source, disk))
    ensures var job := Connect(Direct, source, disk);
      && After(job, es).Some? && Crashes(job, es, After(job, es).value.rcv.file)
      && var disk' := CrashDisk(job, es, After(job, es).value.rcv.file);
         var i := job.Todo()[TORN];
         && WellFormed(source.layout, disk') && i < job.Count() && source.layout.Offset(i) <= source.layout.totalSize
         && Wrong(source, disk') == if Region(source.layout, job.start, i) == source.Chunk(i) then {} else {i}
  {
    var job := Connect(Direct, source, disk);
    es := SavedWhileWriting(job);
    InvAlways(job, es);
    var r := After(job, es).value.rcv;
    assert CrashFile(job, After(job, es).value, r.file);
    ChunkInside(source.layout, job.Todo()[TORN]);
    CrashWrong(Direct, source, disk, es, r.file);
    var i := job.Todo()[TORN];
    assert source.Has(r.file, i) <==> Region(source.layout, job.start, i) == source.Chunk(i);
  }

  /** Resumed after any crash that left a saved chunk wrong, every completed transfer has a wrong file. */
  lemma TornSaveDeliversWrongFile(source: Source, disk: Disk, es: seq<Event>, file: seq<Byte>, next: seq<Event>)
    requires source.Valid() && WellFormed(source.layout, disk) && Connect(Direct, source, disk).Valid()
    requires !CrashSafe(Connect(Direct, source, disk), es, file)
    requires var job := Connect(Direct, source, CrashDisk(Connect(Direct, source, disk), es, file));
      job.Valid() && After(job, next).Some? && After(job, next).value.rcv.phase == Completed
    ensures var disk' := CrashDisk(Connect(Direct, source, disk), es, file);
      After(Connect(Direct, source, disk'), next).value.rcv.file != source.file
  {
    CrashWellFormed(Connect(Direct, source, disk), es, file);
    ResumedDelivers(Direct, source, CrashDisk(Connect(Direct, source, disk), es, file), next);
  }
}
