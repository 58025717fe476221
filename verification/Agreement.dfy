/** The two receivers compared: p2pshare-core/src/transfer/receiver.rs looks at `pending` before it
    uses a frame, p2pshare-core/src/transfer/relay_receiver.rs does not. */
module Agreement {
  import opened Bytes
  import opened Manifest
  import opened Codec
  import opened Wire
  import opened Receiver
  import opened Protocol
  import opened Conservation

  /** The direct receiver `d` and the relay receiver `r` have got equally far; the direct one may
      still be writing its last chunk. */
  ghost predicate Agree(l: Layout, d: Recv, r: Recv) {
    && l.Valid() && Writable(l, d) && Writable(l, r) && r.writing == None
    && d.pending == r.pending && d.done == r.done && d.confirmed == r.confirmed
    && Landed(l, d) == r.file
  }

  ghost predicate AgreeAfter(a: Aead, l: Layout, d: Recv, r: Recv, f: Frame)
    requires Agree(l, d, r) && f.index < l.chunkCount
  {
    var dr, rr := DirectReceive(a, l, d, f), RelayReceive(a, l, r, f);
    Agree(l, dr.rcv, rr.rcv) && NackOf(dr.sent) == NackOf(rr.sent)
  }

  /** From agreement, one frame leaves the receivers agreeing, with the same NACK or none, exactly if
      its chunk is still pending: otherwise the relay receiver counts it a second time, or asks for it again. */
  lemma AgreeExactlyIfPending(a: Aead, l: Layout, d: Recv, r: Recv, f: Frame)
    requires Agree(l, d, r) && f.index < l.chunkCount
    ensures AgreeAfter(a, l, d, r, f) <==> f.index in r.pending
  {
    ChunkInside(l, f.index);
    match Verdict(a, l, f) {
      case None =>
        assert NackOf([ChunkNack(f.index)]) == [f.index];
      case Some(p) =>
        if f.index in r.pending {
          assert NackOf([Progress(r.confirmed + |p|)]) == [];
        } else {
          assert RelayReceive(a, l, r, f).rcv.confirmed > d.confirmed;
        }
    }
  }

  // ---- Sequences of frames ----

  datatype Trace = Trace(rcv: Recv, nacks: seq<nat>)

  function NackOf(sent: seq<Ctrl>): seq<nat> {
    if sent != [] && sent[0].ChunkNack? then [sent[0].index] else []
  }

  ghost function Fold(path: Path, a: Aead, l: Layout, r: Recv, fs: seq<Frame>): (t: Trace)
    requires l.Valid() && Writable(l, r) && (forall f :: f in fs ==> f.index < l.chunkCount)
    decreases |fs|
  {
    if fs == [] then Trace(r, [])
    else
      ChunkInside(l, fs[0].index);
      var reply := Receive(path, a, l, r, fs[0]);
      var rest := Fold(path, a, l, reply.rcv, fs[1..]);
      Trace(rest.rcv, NackOf(reply.sent) + rest.nacks)
  }

  /** No frame comes for a chunk that was already accepted, as conservation guarantees. */
  ghost predicate OncePerChunk(a: Aead, l: Layout, r: Recv, fs: seq<Frame>)
    requires l.Valid() && Writable(l, r) && (forall f :: f in fs ==> f.index < l.chunkCount)
    decreases |fs|
  {
    fs == []
    || (ChunkInside(l, fs[0].index);
        fs[0].index in r.pending && OncePerChunk(a, l, RelayReceive(a, l, r, fs[0]).rcv, fs[1..]))
  }

  /** Fed the same frames, of which none comes after its chunk's acceptance, both receivers reach the
      same chunks, the same file, the same byte count, by the same sequence of NACKs. */
  lemma {:induction false} ReceiversAgree(a: Aead, l: Layout, d: Recv, r: Recv, fs: seq<Frame>)
    requires Agree(l, d, r) && (forall f :: f in fs ==> f.index < l.chunkCount) && OncePerChunk(a, l, r, fs)
    ensures Agree(l, Fold(Direct, a, l, d, fs).rcv, Fold(Relay, a, l, r, fs).rcv)
    ensures Fold(Direct, a, l, d, fs).nacks == Fold(Relay, a, l, r, fs).nacks
    decreases |fs|
  {
    if fs != [] {
      AgreeExactlyIfPending(a, l, d, r, fs[0]);
      ReceiversAgree(a, l, DirectReceive(a, l, d, fs[0]).rcv, RelayReceive(a, l, r, fs[0]).rcv, fs[1..]);
    }
  }

  // ---- The frames of a run ----

  lemma {:induction false} FoldAppend(path: Path, a: Aead, l: Layout, r: Recv, fs: seq<Frame>, f: Frame)
    requires l.Valid() && Writable(l, r) && (forall g :: g in fs ==> g.index < l.chunkCount) && f.index < l.chunkCount
    ensures forall g :: g in fs + [f] ==> g.index < l.chunkCount
    ensures Writable(l, Fold(path, a, l, r, fs).rcv)
    ensures var t := Fold(path, a, l, r, fs);
      var reply := Receive(path, a, l, t.rcv, f);
      Fold(path, a, l, r, fs + [f]) == Trace(reply.rcv, t.nacks + NackOf(reply.sent))
    decreases |fs|
  {
    if fs == [] {
      assert fs + [f] == [f];
    } else {
      assert (fs + [f])[1..] == fs[1..] + [f];
      ChunkInside(l, fs[0].index);
      FoldAppend(path, a, l, Receive(path, a, l, r, fs[0]).rcv, fs[1..], f);
    }
  }

  lemma {:induction false} OnceAppend(a: Aead, l: Layout, r: Recv, fs: seq<Frame>, f: Frame)
    requires l.Valid() && Writable(l, r) && (forall g :: g in fs ==> g.index < l.chunkCount) && f.index < l.chunkCount
    requires OncePerChunk(a, l, r, fs) && f.index in Fold(Relay, a, l, r, fs).rcv.pending
    ensures forall g :: g in fs + [f] ==> g.index < l.chunkCount
    ensures OncePerChunk(a, l, r, fs + [f])
    decreases |fs|
  {
    if fs == [] {
      assert fs + [f] == [f];
    } else {
      assert (fs + [f])[1..] == fs[1..] + [f];
      ChunkInside(l, fs[0].index);
      OnceAppend(a, l, RelayReceive(a, l, r, fs[0]).rcv, fs[1..], f);
    }
  }

  /** All but the saved state, which the relay loop's decisions do not depend on. */
  ghost predicate SameButSaved(l: Layout, r: Recv, s: Recv) {
    && Writable(l, r) && Writable(l, s) && r.writing == None && s.writing == None
    && r.pending == s.pending && r.done == s.done && r.confirmed == s.confirmed && r.file == s.file
  }

  lemma ReceiveSameButSaved(a: Aead, l: Layout, r: Recv, s: Recv, f: Frame)
    requires l.Valid() && SameButSaved(l, r, s) && f.index < l.chunkCount
    ensures SameButSaved(l, RelayReceive(a, l, r, f).rcv, RelayReceive(a, l, s, f).rcv)
  {
    ChunkInside(l, f.index);
  }

  ghost predicate RunInv(job: Job, r: Recv, fs: seq<Frame>)
    requires job.Valid()
  {
    var l, start := job.Layout(), Init(job).rcv;
    && (forall f :: f in fs ==> f.index < job.Count())
    && OncePerChunk(job.source.aead, l, start, fs)
    && SameButSaved(l, Fold(Relay, job.source.aead, l, start, fs).rcv, r)
  }

  lemma TakeRun(job: Job, s: Sys, fs: seq<Frame>)
    requires job.Valid() && job.path.Relay? && Inv(job, s) && Enabled(job, s, Take) && RunInv(job, s.rcv, fs)
    ensures RunInv(job, DoTake(job, s).rcv, fs + [s.data[0]])
  {
    var a, l, start, f := job.source.aead, job.Layout(), Init(job).rcv, s.data[0];
    FirstIsPending(job, s);
    FoldAppend(Relay, a, l, start, fs, f);
    OnceAppend(a, l, start, fs, f);
    ReceiveSameButSaved(a, l, Fold(Relay, a, l, start, fs).rcv, s.rcv, f);
  }

  lemma OtherRun(job: Job, s: Sys, e: Event)
    requires job.Valid() && job.path.Relay? && FileInv(job, s.rcv) && Enabled(job, s, e) && !e.Take?
    ensures !e.Stray? && SameButSaved(job.Layout(), s.rcv, Step(job, s, e).rcv)
  {
  }

  lemma {:induction false} RunAlways(job: Job, es: seq<Event>)
    requires job.Valid() && job.path.Relay? && After(job, es).Some?
    ensures RunInv(job, After(job, es).value.rcv, Taken(job, es))
  {
    if es != [] {
      var front, e := es[..|es| - 1], es[|es| - 1];
      var s := After(job, front).value;
      RunAlways(job, front);
      InvAlways(job, front);
      if e.Take? {
        TakeRun(job, s, Taken(job, front));
      } else {
        OtherRun(job, s, e);
        assert Taken(job, es) == Taken(job, front);
      }
    }
  }

  /** The relay receiver needs no look at `pending`: on the frames any relay run delivers, whatever
      was corrupted, the direct receiver's loop body would have reached the same chunks, the same file
      and the same byte count, and asked for the same retransmissions in the same order. */
  lemma DirectAgreesOnRelayRun(job: Job, es: seq<Event>)
    requires job.Valid() && job.path.Relay? && After(job, es).Some?
    ensures forall f :: f in Taken(job, es) ==> f.index < job.Count()
    ensures var l, fs := job.Layout(), Taken(job, es);
      var direct := Fold(Direct, job.source.aead, l, Init(job).rcv, fs);
      var relay := Fold(Relay, job.source.aead, l, Init(job).rcv, fs);
      Agree(l, direct.rcv, After(job, es).value.rcv) && direct.nacks == relay.nacks
  {
    RunAlways(job, es);
    ReceiversAgree(job.source.aead, job.Layout(), Init(job).rcv, Init(job).rcv, Taken(job, es));
  }
}
