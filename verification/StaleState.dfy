/** A state file that outlives its output file. `find_resumable` of p2pshare-core/src/transfer/resume.rs
    does not use it, but nothing removes it: it is there for the next connection, beside the new output. */
module StaleState {
  import opened Bytes
  import opened Manifest
  import opened Codec
  import opened Wire
  import opened Receiver
  import opened Protocol
  import opened Conservation
  import opened Delivery
  import opened Recovery
  import opened TornSave

  lemma ZeroRegion(l: Layout, i: nat)
    requires l.Offset(i) <= l.totalSize
    ensures Region(l, Zeros(l.totalSize), i) == Zeros(l.Size(i))
  {
  }

  /** A connection started beside the stale state `stale` and interrupted before its first save, wherever
      it had got: of the chunks listed there that no write was touching, the wrong ones are those it had
      not received, unless they are all zeros in the source. */
  lemma StaleChunks(path: Path, source: Source, stale: set<nat>, es: seq<Event>, file: seq<Byte>, i: nat)
    requires source.Valid() && WellFormed(source.layout, Disk(None, Some(stale)))
    requires Connect(path, source, Disk(None, Some(stale))).Valid()
    requires Crashes(Connect(path, source, Disk(None, Some(stale))), es, file)
    requires var s := After(Connect(path, source, Disk(None, Some(stale))), es).value;
      s.rcv.saved == Some(stale) && i in stale && i !in Exposed(Connect(path, source, Disk(None, Some(stale))), s)
    ensures var job := Connect(path, source, Disk(None, Some(stale)));
      && WellFormed(source.layout, CrashDisk(job, es, file))
      && source.layout.Offset(i) <= source.layout.totalSize
      && (i in Wrong(source, CrashDisk(job, es, file)) <==>
            i !in After(job, es).value.rcv.done && source.Chunk(i) != Zeros(source.layout.Size(i)))
  {
    var job := Connect(path, source, Disk(None, Some(stale)));
    CrashWellFormed(job, es, file);
    SettledChunk(job, es, file, i);
    ZeroRegion(source.layout, i);
  }

  /** The next connection takes that state for its own; if it completes, its output is wrong. */
  lemma StaleStateRevived(path: Path, source: Source, stale: set<nat>, es: seq<Event>, file: seq<Byte>,
                          i: nat, next: seq<Event>)
    requires source.Valid() && WellFormed(source.layout, Disk(None, Some(stale)))
    requires Connect(path, source, Disk(None, Some(stale))).Valid()
    requires Crashes(Connect(path, source, Disk(None, Some(stale))), es, file)
    requires var s := After(Connect(path, source, Disk(None, Some(stale))), es).value;
      && s.rcv.saved == Some(stale) && i in stale && i !in s.rcv.done
      && i !in Exposed(Connect(path, source, Disk(None, Some(stale))), s)
    requires source.layout.Offset(i) <= source.layout.totalSize && source.Chunk(i) != Zeros(source.layout.Size(i))
    requires var job := Connect(path, source, CrashDisk(Connect(path, source, Disk(None, Some(stale))), es, file));
      job.Valid() && After(job, next).Some? && After(job, next).value.rcv.phase == Completed
    ensures var job := Connect(path, source, CrashDisk(Connect(path, source, Disk(None, Some(stale))), es, file));
      job.skip == stale && After(job, next).value.rcv.file != source.file
  {
    StaleChunks(path, source, stale, es, file, i);
    ResumedDelivers(path, source, CrashDisk(Connect(path, source, Disk(None, Some(stale))), es, file), next);
  }

  // ---- Which disks are safe to start from ----

  /** Whatever the file being sent is, as long as the chunks to be skipped are its own: no crash of the
      connection makes a later one skip a wrong chunk. */
  ghost predicate SafeToStart(path: Path, l: Layout, disk: Disk)
    requires l.Valid() && WellFormed(l, disk)
  {
    forall source: Source :: SafeFor(path, l, disk, source)
  }

  ghost predicate SafeFor(path: Path, l: Layout, disk: Disk, source: Source)
    requires l.Valid() && WellFormed(l, disk)
  {
    source.Valid() && source.layout == l && Wrong(source, disk) == {} ==>
      (ConnectValid(path, source, disk); AllCrashesSafe(Connect(path, source, disk)))
  }

  /** The chunks a connection that starts from the disk has to send. */
  function ToSend(l: Layout, disk: Disk): seq<nat> {
    Missing(l.chunkCount, if Resumable(disk) then disk.saved.value else {})
  }

  /** A file that has no zero in it. */
  function Ones(n: nat): seq<Byte> {
    seq(n, _ => 1)
  }

  /** A file for which the disk is right: what is in the output, or ones. */
  function Witness(l: Layout, disk: Disk): Source {
    Source(ToyAead(), l, if disk.file.Some? then disk.file.value else Ones(l.totalSize))
  }

  lemma WitnessFits(l: Layout, disk: Disk)
    requires l.Valid() && WellFormed(l, disk)
    ensures Witness(l, disk).Valid() && Wrong(Witness(l, disk), disk) == {}
  {
    LawfulAeadExists();
  }

  /** Interrupted before its first event, a connection started beside a stale state leaves it beside an
      output of zeros. */
  lemma StaleIsUnsafe(path: Path, l: Layout, disk: Disk)
    requires l.Valid() && WellFormed(l, disk) && Stale(disk)
    ensures !SafeToStart(path, l, disk)
  {
    var source := Witness(l, disk);
    WitnessFits(l, disk);
    ConnectValid(path, source, disk);
    var job := Connect(path, source, disk);
    var i :| i in disk.saved.value;
    ChunkInside(l, i);
    ZeroRegion(l, i);
    assert Region(l, source.file, i)[0] == 1;
    assert CrashFile(job, Init(job), job.start);
    assert After(job, []) == Some(Init(job));
    InvAlways(job, []);
    CrashWellFormed(job, [], job.start);
    assert i in Wrong(source, CrashDisk(job, [], job.start));
    assert !CrashSafe(job, [], job.start);
    assert !SafeFor(path, l, disk, source);
  }

  /** For every disk: starting from it is safe, for all files, exactly if the guard of `find_resumable`
      does not meet a state file without its output file and, on the direct path, fewer than sixteen
      chunks are to be sent. */
  lemma SafeToStartExactlyIf(path: Path, l: Layout, disk: Disk)
    requires l.Valid() && WellFormed(l, disk)
    ensures SafeToStart(path, l, disk) <==>
      !Stale(disk) && (path.Direct? ==> |ToSend(l, disk)| < 16)
  {
    if Stale(disk) {
      StaleIsUnsafe(path, l, disk);
    } else {
      forall source: Source | source.Valid() && source.layout == l && Wrong(source, disk) == {}
        ensures Connect(path, source, disk).Valid()
        ensures AllCrashesSafe(Connect(path, source, disk)) <==>
          (path.Direct? ==> |ToSend(l, disk)| < 16)
      {
        ConnectValid(path, source, disk);
        if path.Direct? {
          AllDirectCrashesSafeExactlyIf(source, disk);
        } else {
          RelayCrashSafe(source, disk);
        }
      }
      WitnessFits(l, disk);
      assert SafeToStart(path, l, disk) ==> SafeFor(path, l, disk, Witness(l, disk));
    }
  }
}
