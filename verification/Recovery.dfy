/** Crashes and resumed transfers: p2pshare-core/src/transfer/resume.rs and the way both receivers
    start from what they find on disk. One sender session, hence one state file. */
module Recovery {
  import opened Bytes
  import opened Manifest
  import opened Wire
  import opened Receiver
  import opened Protocol
  import opened Conservation
  import opened Delivery

  /** What survives a crash: the output file and the `chunks_done` of the saved state. */
  datatype Disk = Disk(file: Option<seq<Byte>>, saved: Option<set<nat>>)

  /** `find_resumable`: the saved state counts only if the output file is there. */
  predicate Resumable(disk: Disk) {
    disk.file.Some? && disk.saved.Some?
  }

  function Zeros(n: nat): seq<Byte> {
    seq(n, _ => 0)
  }

  /** Resume, or start afresh: create the output, or truncate it, and set its length. A state file
      that could not be used is left where it is. */
  function Connect(path: Path, source: Source, disk: Disk): Job {
    if Resumable(disk) then Job(path, source, disk.file.value, disk.saved.value, disk.saved)
    else Job(path, source, Zeros(source.layout.totalSize), {}, disk.saved)
  }

  /** A disk for a file cut this way. */
  ghost predicate WellFormed(l: Layout, disk: Disk) {
    && (disk.saved.Some? ==> disk.saved.value <= Range(l.chunkCount))
    && (disk.file.Some? ==> |disk.file.value| == l.totalSize)
  }

  /** The guard of `find_resumable` fails although a state file is there: it lists chunks of an output
      file that is gone. */
  predicate Stale(disk: Disk) {
    disk.file.None? && disk.saved.Some? && disk.saved.value != {}
  }

  lemma ConnectValid(path: Path, source: Source, disk: Disk)
    requires source.Valid() && WellFormed(source.layout, disk)
    ensures Connect(path, source, disk).Valid()
  {
  }

  lemma {:induction false} NothingSkipped(n: nat)
    ensures |Missing(n, {})| == n && forall k :: 0 <= k < n ==> Missing(n, {})[k] == k
  {
    if n > 0 {
      NothingSkipped(n - 1);
    }
  }

  /** A transfer that is not resumed starts from an output of zeros and sends every chunk, in order; the state
      file stays as it was found. */
  lemma StartsAfresh(path: Path, source: Source, disk: Disk)
    requires source.Valid() && WellFormed(source.layout, disk) && (disk.file == None || disk.saved == None)
    ensures var job := Connect(path, source, disk);
      && job.Valid() && |job.Todo()| == source.layout.chunkCount
      && (forall k :: 0 <= k < |job.Todo()| ==> job.Todo()[k] == k)
      && var r := Init(job).rcv;
         && |r.file| == source.layout.totalSize && (forall b :: 0 <= b < |r.file| ==> r.file[b] == 0)
         && r.done == {} && r.pending == Range(source.layout.chunkCount) && r.confirmed == 0 && r.saved == disk.saved
  {
    ConnectValid(path, source, disk);
    NothingSkipped(source.layout.chunkCount);
    NoBytesDone(source.layout, source.layout.chunkCount);
  }

  lemma {:induction false} NoBytesDone(l: Layout, n: nat)
    requires l.Valid() && n <= l.chunkCount
    ensures DoneBytes(l, {}, n) == 0
  {
    if n > 0 {
      NoBytesDone(l, n - 1);
    }
  }

  // ---- Crash ----

  /** The chunk whose bytes on disk a crash may leave in any state: the one being written in the
      background (direct), or the one the receive loop may be in the middle of writing (relay). */
  function Exposed(job: Job, s: Sys): set<nat> {
    if job.path.Direct? then (if s.rcv.writing.Some? then {s.rcv.writing.value.index} else {})
    else if s.rcv.phase == Receiving && !s.rcv.saveDue && s.data != [] then {s.data[0].index} else {}
  }

  ghost predicate CrashFile(job: Job, s: Sys, file: seq<Byte>)
    requires job.Valid() && |s.rcv.file| == job.Layout().totalSize
  {
    && |file| == job.Layout().totalSize
    && (forall i: nat :: i < job.Count() && i !in Exposed(job, s) ==> SameAt(job, file, s.rcv.file, i))
  }

  ghost predicate SameAt(job: Job, f: seq<Byte>, g: seq<Byte>, i: nat)
    requires job.Valid() && i < job.Count() && |f| == |g| == job.Layout().totalSize
  {
    ChunkInside(job.Layout(), i);
    Region(job.Layout(), f, i) == Region(job.Layout(), g, i)
  }

  /** A crash of the run `es` that leaves `file` in the output. */
  ghost predicate Crashes(job: Job, es: seq<Event>, file: seq<Byte>)
    requires job.Valid()
  {
    After(job, es).Some? && (InvAlways(job, es); CrashFile(job, After(job, es).value, file))
  }

  ghost function CrashDisk(job: Job, es: seq<Event>, file: seq<Byte>): Disk
    requires job.Valid() && Crashes(job, es, file)
  {
    Disk(Some(file), After(job, es).value.rcv.saved)
  }

  // ---- What a resumable disk is worth ----

  /** The chunks a resumed transfer will skip although their bytes in the output are not the source's. */
  ghost function Wrong(source: Source, disk: Disk): set<nat>
    requires source.Valid() && WellFormed(source.layout, disk)
  {
    if !Resumable(disk) then {}
    else set i | i in disk.saved.value && i < source.layout.chunkCount && !source.Has(disk.file.value, i)
  }

  lemma CrashWellFormed(job: Job, es: seq<Event>, file: seq<Byte>)
    requires job.Valid() && Crashes(job, es, file)
    ensures WellFormed(job.Layout(), CrashDisk(job, es, file))
  {
    InvAlways(job, es);
  }

  /** A chunk that no write was touching is the source's if it was received, and otherwise as it was. */
  lemma SettledChunk(job: Job, es: seq<Event>, file: seq<Byte>, i: nat)
    requires job.Valid() && Crashes(job, es, file)
    requires i < job.Count() && i !in Exposed(job, After(job, es).value)
    ensures job.Layout().Offset(i) <= job.Layout().totalSize == |file|
    ensures Region(job.Layout(), file, i) == Expected(job, After(job, es).value.rcv.done, i)
  {
    InvAlways(job, es);
    ChunkInside(job.Layout(), i);
    var r := After(job, es).value.rcv;
    assert HoldsAt(job, r.done, Landed(job.Layout(), r), i);
    assert SameAt(job, file, r.file, i);
    if r.writing.Some? {
      ChunkInside(job.Layout(), r.writing.value.index);
      WriteAtRegions(job.Layout(), r.file, r.writing.value.index, r.writing.value.data, i);
    }
  }

  /** The relay receiver writes before it counts: what a crash may tear was never done. */
  lemma RelayExposesNothingDone(job: Job, es: seq<Event>)
    requires job.Valid() && job.path.Relay? && After(job, es).Some?
    ensures var s := After(job, es).value; Exposed(job, s) !! s.rcv.done
  {
    InvAlways(job, es);
    var s := After(job, es).value;
    if s.data != [] {
      FirstIsPending(job, s);
    }
  }

  /** But it may tear that chunk in any way: after a crash while the next frame is on its way its chunk of the
      output may hold any bytes. */
  lemma RelayMayTear(job: Job, es: seq<Event>, q: seq<Byte>)
    requires job.Valid() && job.path.Relay? && After(job, es).Some? && After(job, es).value.data != []
    requires var s := After(job, es).value;
      !s.rcv.saveDue && job.Layout().Offset(s.data[0].index) <= job.Layout().totalSize
      && |q| == job.Layout().Size(s.data[0].index)
    ensures var s := After(job, es).value;
      && s.data[0].index !in s.rcv.done && job.Layout().Offset(s.data[0].index) + |q| <= job.Layout().totalSize
      && |s.rcv.file| == job.Layout().totalSize
      && Crashes(job, es, WriteAt(job.Layout(), s.rcv.file, s.data[0].index, q))
  {
    InvAlways(job, es);
    var l, s := job.Layout(), After(job, es).value;
    FirstIsPending(job, s);
    ChunkInside(l, s.data[0].index);
    forall i: nat | i < job.Count() && i !in Exposed(job, s)
      ensures SameAt(job, WriteAt(l, s.rcv.file, s.data[0].index, q), s.rcv.file, i)
    {
      WriteAtRegions(l, s.rcv.file, s.data[0].index, q, i);
    }
  }

  /** Unless the connection started beside a stale state file, the state file lists chunks that are done. */
  lemma SavedIsDone(source: Source, disk: Disk, path: Path, es: seq<Event>)
    requires source.Valid() && WellFormed(source.layout, disk) && !Stale(disk)
    requires Connect(path, source, disk).Valid() && After(Connect(path, source, disk), es).Some?
    ensures var r := After(Connect(path, source, disk), es).value.rcv; SavedSet(r) <= r.done
  {
    InvAlways(Connect(path, source, disk), es);
  }

  /** What a crash can add to the wrong chunks: only an exposed chunk that was already saved. */
  lemma CrashWrong(path: Path, source: Source, disk: Disk, es: seq<Event>, file: seq<Byte>)
    requires source.Valid() && WellFormed(source.layout, disk) && !Stale(disk)
    requires Connect(path, source, disk).Valid() && Crashes(Connect(path, source, disk), es, file)
    ensures WellFormed(source.layout, CrashDisk(Connect(path, source, disk), es, file))
    ensures var job := Connect(path, source, disk);
      var s := After(job, es).value;
      Wrong(source, CrashDisk(job, es, file)) <= Wrong(source, disk) + (Exposed(job, s) * SavedSet(s.rcv))
  {
    var job := Connect(path, source, disk);
    CrashWellFormed(job, es, file);
    SavedIsDone(source, disk, path, es);
    var s := After(job, es).value;
    forall i | i in Wrong(source, CrashDisk(job, es, file)) && i !in Exposed(job, s) * SavedSet(s.rcv)
      ensures i in Wrong(source, disk)
    {
      SettledChunk(job, es, file, i);
    }
  }

  /** No crash of the run `es` that leaves `file` makes a later transfer skip a wrong chunk. */
  ghost predicate CrashSafe(job: Job, es: seq<Event>, file: seq<Byte>)
    requires job.Valid()
  {
    Crashes(job, es, file) ==>
      (CrashWellFormed(job, es, file); Wrong(job.source, CrashDisk(job, es, file)) == {})
  }

  ghost predicate AllCrashesSafe(job: Job)
    requires job.Valid()
  {
    forall es, file :: CrashSafe(job, es, file)
  }

  /** On the relay path every crash of every run leaves every saved chunk right. */
  lemma RelayCrashSafe(source: Source, disk: Disk)
    requires source.Valid() && WellFormed(source.layout, disk) && !Stale(disk) && Wrong(source, disk) == {}
    requires Connect(Relay, source, disk).Valid()
    ensures AllCrashesSafe(Connect(Relay, source, disk))
  {
    var job := Connect(Relay, source, disk);
    forall es, file | Crashes(job, es, file)
      ensures CrashSafe(job, es, file)
    {
      RelayExposesNothingDone(job, es);
      SavedIsDone(source, disk, Relay, es);
      CrashWrong(Relay, source, disk, es, file);
    }
  }

  /** A chunk is in the saved state while its write is still under way. */
  predicate WritingSaved(job: Job, r: Recv) {
    && r.writing.Some? && r.writing.value.index < job.Count()
    && r.saved.Some? && r.writing.value.index in r.saved.value
  }

  /** Other bytes of the same number. */
  function Spoiled(p: seq<Byte>): (q: seq<Byte>)
    requires p != []
    ensures |q| == |p| && q != p
  {
    var q: seq<Byte> := [if p[0] == 0 then 1 else 0] + p[1..];
    assert q[0] != p[0];
    q
  }

  /** A write of a saved chunk that is torn spoils it. */
  lemma TornWrite(job: Job, es: seq<Event>) returns (file: seq<Byte>)
    requires job.Valid() && job.path.Direct? && After(job, es).Some? && WritingSaved(job, After(job, es).value.rcv)
    ensures !CrashSafe(job, es, file)
  {
    InvAlways(job, es);
    var l, s := job.Layout(), After(job, es).value;
    var w := s.rcv.writing.value.index;
    ChunkInside(l, w);
    file := WriteAt(l, s.rcv.file, w, Spoiled(job.source.Chunk(w)));
    forall i: nat | i < job.Count() && i !in Exposed(job, s)
      ensures SameAt(job, file, s.rcv.file, i)
    {
      WriteAtRegions(l, s.rcv.file, w, Spoiled(job.source.Chunk(w)), i);
    }
    WriteAtRegions(l, s.rcv.file, w, Spoiled(job.source.Chunk(w)), w);
    CrashWellFormed(job, es, file);
    assert w in Wrong(job.source, CrashDisk(job, es, file));
  }

  /** On the direct path, in any state: every crash leaves every saved chunk right exactly if the chunk
      being written, if there is one, is not in the saved state. */
  lemma DirectCrashSafeExactlyIf(source: Source, disk: Disk, es: seq<Event>)
    requires source.Valid() && WellFormed(source.layout, disk) && !Stale(disk) && Wrong(source, disk) == {}
    requires Connect(Direct, source, disk).Valid() && After(Connect(Direct, source, disk), es).Some?
    ensures var job := Connect(Direct, source, disk);
      (forall file :: CrashSafe(job, es, file)) <==> !WritingSaved(job, After(job, es).value.rcv)
  {
    var job := Connect(Direct, source, disk);
    InvAlways(job, es);
    if WritingSaved(job, After(job, es).value.rcv) {
      var file := TornWrite(job, es);
    } else {
      forall file | Crashes(job, es, file)
        ensures CrashSafe(job, es, file)
      {
        CrashWrong(Direct, source, disk, es, file);
      }
    }
  }

  // ---- Any number of rounds ----

  /** One interrupted connection, over either path: the events up to the crash and the output file it
      leaves. */
  datatype Round = Round(path: Path, events: seq<Event>, file: seq<Byte>)

  /** The disk after the rounds, starting from none, if they can happen. */
  ghost function AfterRounds(source: Source, rounds: seq<Round>): Option<Disk>
    requires source.Valid()
    ensures AfterRounds(source, rounds).Some? ==>
      var disk := AfterRounds(source, rounds).value; WellFormed(source.layout, disk) && !Stale(disk)
  {
    if rounds == [] then Some(Disk(None, None))
    else
      var last := rounds[|rounds| - 1];
      match AfterRounds(source, rounds[..|rounds| - 1])
      case None => None
      case Some(disk) =>
        ConnectValid(last.path, source, disk);
        var job := Connect(last.path, source, disk);
        if Crashes(job, last.events, last.file) then
          CrashWellFormed(job, last.events, last.file);
          Some(CrashDisk(job, last.events, last.file))
        else None
  }

  function DirectRounds(rounds: seq<Round>): nat {
    if rounds == [] then 0
    else DirectRounds(rounds[..|rounds| - 1]) + if rounds[|rounds| - 1].path.Direct? then 1 else 0
  }

  /** A crash spoils no saved chunk on the relay path and at most one on the direct path. */
  lemma RoundSpoils(path: Path, source: Source, disk: Disk, es: seq<Event>, file: seq<Byte>)
    requires source.Valid() && WellFormed(source.layout, disk) && !Stale(disk)
    requires Connect(path, source, disk).Valid() && Crashes(Connect(path, source, disk), es, file)
    ensures WellFormed(source.layout, CrashDisk(Connect(path, source, disk), es, file))
    ensures |Wrong(source, CrashDisk(Connect(path, source, disk), es, file))|
         <= |Wrong(source, disk)| + if path.Direct? then 1 else 0
  {
    var job := Connect(path, source, disk);
    var s := After(job, es).value;
    CrashWrong(path, source, disk, es, file);
    SavedIsDone(source, disk, path, es);
    if path.Relay? {
      RelayExposesNothingDone(job, es);
    }
    var wrong, exposed := Wrong(source, disk), Exposed(job, s) * SavedSet(s.rcv);
    assert |exposed| <= if path.Direct? then 1 else 0 by {
      SubsetSizes(exposed, Exposed(job, s));
    }
    SubsetSizes(Wrong(source, CrashDisk(job, es, file)), wrong + exposed);
    SubsetSizes(wrong, wrong + exposed);
    SubsetSizes(wrong + exposed - wrong, exposed);
  }

  /** After any number of crashes, over whichever paths, no more saved chunks are wrong than connections
      were direct. */
  lemma {:induction false} RoundsSpoil(source: Source, rounds: seq<Round>)
    requires source.Valid() && AfterRounds(source, rounds).Some?
    ensures |Wrong(source, AfterRounds(source, rounds).value)| <= DirectRounds(rounds)
  {
    if rounds != [] {
      var front, last := rounds[..|rounds| - 1], rounds[|rounds| - 1];
      var disk := AfterRounds(source, front).value;
      RoundsSpoil(source, front);
      ConnectValid(last.path, source, disk);
      RoundSpoils(last.path, source, disk, last.events, last.file);
    }
  }

  /** A connection that completes delivers the source exactly if no chunk it skipped was wrong. */
  lemma ResumedDelivers(path: Path, source: Source, disk: Disk, es: seq<Event>)
    requires source.Valid() && WellFormed(source.layout, disk)
    requires var job := Connect(path, source, disk);
      job.Valid() && After(job, es).Some? && After(job, es).value.rcv.phase == Completed
    ensures After(Connect(path, source, disk), es).value.rcv.file == source.file <==> Wrong(source, disk) == {}
  {
    var job := Connect(path, source, disk);
    DeliveredExactlyIf(job, es);
    if Wrong(source, disk) == {} {
      forall i: nat | i in job.skip && i < job.Count()
        ensures job.source.Has(job.start, i)
      {
        assert i !in Wrong(source, disk);
      }
    }
    if SkippedCorrect(job) {
      forall i: nat | i in job.skip && i < job.Count()
        ensures source.Has(job.start, i)
      {
      }
      assert Wrong(source, disk) == {};
    }
  }

  /** However often relay connections were interrupted, a connection that completes, over either path,
      delivers the source. */
  lemma DeliversAfterRelayCrashes(path: Path, source: Source, rounds: seq<Round>, es: seq<Event>)
    requires source.Valid() && AfterRounds(source, rounds).Some? && DirectRounds(rounds) == 0
    requires var job := Connect(path, source, AfterRounds(source, rounds).value);
      job.Valid() && After(job, es).Some? && After(job, es).value.rcv.phase == Completed
    ensures After(Connect(path, source, AfterRounds(source, rounds).value), es).value.rcv.file == source.file
  {
    RoundsSpoil(source, rounds);
    ResumedDelivers(path, source, AfterRounds(source, rounds).value, es);
  }
}
