/** A fresh transfer from end to end: the manifest of a file, a run over either path, the output. */
module Completion {
  import opened Bytes
  import opened Manifest
  import opened Codec
  import opened Wire
  import opened Receiver
  import opened Protocol
  import opened Conservation
  import opened Delivery
  import opened Termination
  import opened Recovery

  /** Sending `file` to a receiver that has nothing of it. */
  function FreshTransfer(path: Path, a: Aead, file: seq<Byte>): Job {
    Connect(path, Source(a, BuildLayout(|file|), file), Disk(None, None))
  }

  /** The manifest describes the file, and the transfer is one the other results speak of, exactly up
      to the size at which the chunk count no longer fits its field. */
  lemma FreshTransferValid(path: Path, a: Aead, file: seq<Byte>)
    requires a.Lawful() && |file| < U64_LIMIT
    ensures FreshTransfer(path, a, file).Valid() <==> |file| <= 0xFFFF_FFFF * 8_388_608
  {
    BuildLayoutCovers(|file|);
    if |file| <= 0xFFFF_FFFF * 8_388_608 {
      ConnectValid(path, Source(a, BuildLayout(|file|), file), Disk(None, None));
    }
  }

  /** Whatever happens, corruption of any kind included: a receiver that has left its loop has the file. */
  lemma FreshTransferDelivers(path: Path, a: Aead, file: seq<Byte>, es: seq<Event>)
    requires a.Lawful() && |file| <= 0xFFFF_FFFF * 8_388_608
    requires FreshTransfer(path, a, file).Valid() && After(FreshTransfer(path, a, file), es).Some?
    requires After(FreshTransfer(path, a, file), es).value.rcv.phase != Receiving
    ensures After(FreshTransfer(path, a, file), es).value.rcv.file == file
  {
    DeliveredExactlyIf(FreshTransfer(path, a, file), es);
  }

  /** As long as the receiver is in step, the transfer of a file that is not empty can be completed, with
      both ends done and the file delivered, whatever has been corrupted so far. */
  lemma FreshTransferCompletes(path: Path, a: Aead, file: seq<Byte>, es: seq<Event>) returns (all: seq<Event>)
    requires a.Lawful() && 0 < |file| <= 0xFFFF_FFFF * 8_388_608
    requires FreshTransfer(path, a, file).Valid() && After(FreshTransfer(path, a, file), es).Some?
    requires !After(FreshTransfer(path, a, file), es).value.astray
    ensures es <= all && After(FreshTransfer(path, a, file), all).Some?
    ensures var s := After(FreshTransfer(path, a, file), all).value; Final(s) && s.rcv.file == file
  {
    var job := FreshTransfer(path, a, file);
    CeilDivBounds(|file|, job.Layout().chunkSize);
    assert 0 in job.Todo();
    all := CanFinish(job, es);
    FreshTransferDelivers(path, a, file, all);
  }
}
