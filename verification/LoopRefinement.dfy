/** The receive loops against the transition system: fed the frames a run delivers, the loop proved
    about the byte streams has the receiver's variables of that run, whenever background writes land
    and states are saved. */
module LoopRefinement {
  import opened Bytes
  import opened Manifest
  import opened Codec
  import opened Wire
  import opened Streaming
  import opened Receiver
  import opened ReceiveLoop
  import P = Protocol
  import C = Conservation

  /** Equally far, and with the same output once the writes under way have landed. */
  ghost predicate Matches(l: Layout, m: Recv, d: Recv) {
    && l.Valid() && Writable(l, m) && Writable(l, d)
    && m.pending == d.pending && m.done == d.done && m.confirmed == d.confirmed
    && m.sinceAck == d.sinceAck && m.sinceSave == d.sinceSave && m.saved == d.saved
    && m.saveDue == d.saveDue && Landed(l, m) == Landed(l, d)
  }

  ghost function Start(job: P.Job): Recv
    requires job.Valid()
  {
    P.Init(job).rcv.(open := true)
  }

  /** The loop on the frames taken in the run. */
  ghost function Loop(job: P.Job, fs: seq<Frame>): Drained
    requires job.Valid() && ForLayout(job.Layout(), fs)
  {
    Drain(job.path, job.source.aead, job.Layout(), Start(job), fs)
  }

  /** The loop has used the frames `fs` and is where the receiver `r` is. */
  ghost predicate Tracks(job: P.Job, r: Recv, fs: seq<Frame>)
    requires job.Valid()
  {
    && ForLayout(job.Layout(), fs)
    && Loop(job, fs).used == |fs|
    && Matches(job.Layout(), Settle(r), Loop(job, fs).rcv)
    && (job.path.Relay? ==> Loop(job, fs).rcv.writing == None)
    && !Loop(job, fs).rcv.saveDue
  }

  /** One more frame, if the loop has used all before and still has chunks pending. */
  lemma {:induction false} DrainAppend(path: Path, a: Aead, l: Layout, r: Recv, fs: seq<Frame>, f: Frame)
    requires l.Valid() && Writable(l, r) && ForLayout(l, fs) && f.index < l.chunkCount
    requires Drain(path, a, l, r, fs).used == |fs| && Drain(path, a, l, r, fs).rcv.pending != {}
    ensures ForLayout(l, fs + [f])
    ensures var d := Drain(path, a, l, r, fs);
      Writable(l, d.rcv)
      && Drain(path, a, l, r, fs + [f]).rcv == Settle(Receive(path, a, l, d.rcv, f).rcv)
      && Drain(path, a, l, r, fs + [f]).used == |fs| + 1
    decreases |fs|
  {
    if fs == [] {
      assert fs + [f] == [f];
    } else {
      assert (fs + [f])[1..] == fs[1..] + [f];
      ChunkInside(l, fs[0].index);
      DrainAppend(path, a, l, Settle(Receive(path, a, l, r, fs[0]).rcv), fs[1..], f);
    }
  }

  /** The same frame keeps matching receivers matching. */
  lemma ReceiveMatches(path: Path, a: Aead, l: Layout, m: Recv, d: Recv, f: Frame)
    requires Matches(l, m, d) && f.index < l.chunkCount && !m.saveDue
    requires path.Relay? ==> m.writing == None && d.writing == None
    ensures Matches(l, Settle(Receive(path, a, l, m, f).rcv), Settle(Receive(path, a, l, d, f).rcv))
    ensures path.Relay? ==> Settle(Receive(path, a, l, d, f).rcv).writing == None
    ensures !Settle(Receive(path, a, l, d, f).rcv).saveDue
  {
    ChunkInside(l, f.index);
  }

  lemma ReadTracks(job: P.Job, r: Recv, fs: seq<Frame>, f: Frame)
    requires job.Valid() && C.FileInv(job, r) && P.Reads(job, r) && f.index < job.Count() && Tracks(job, r, fs)
    ensures Tracks(job, Receive(job.path, job.source.aead, job.Layout(), r, f).rcv, fs + [f])
  {
    var d := Loop(job, fs).rcv;
    assert d.pending == r.pending;
    DrainAppend(job.path, job.source.aead, job.Layout(), Start(job), fs, f);
    ReceiveMatches(job.path, job.source.aead, job.Layout(), r, d, f);
  }

  lemma StartTracks(job: P.Job)
    requires job.Valid()
    ensures Tracks(job, P.Init(job).rcv, [])
  {
  }

  /** The other events leave the receiver where it is, up to a landed write or a save. */
  lemma OtherMatches(job: P.Job, s: P.Sys, e: P.Event, d: Recv)
    requires job.Valid() && P.Enabled(job, s, e) && !e.Take? && !e.Stray? && !e.Finish?
    requires Matches(job.Layout(), Settle(s.rcv), d)
    ensures Matches(job.Layout(), Settle(P.Step(job, s, e).rcv), d)
  {
    if !e.Land? && !e.Save? && !e.Open? {
      assert P.Step(job, s, e).rcv == s.rcv;
    }
  }

  /** The chunk loop is not entered again once it has been left. */
  lemma StillReceiving(job: P.Job, s: P.Sys, e: P.Event)
    requires job.Valid() && P.Enabled(job, s, e) && P.Step(job, s, e).rcv.phase == Receiving
    ensures s.rcv.phase == Receiving && !e.Finish?
  {
  }

  /** In every run: the loop on the frames read so far has used them all and has the receiver's
      pending and received chunks, byte count and counters, saved state, and output file. */
  lemma {:induction false} LoopFollowsRun(job: P.Job, es: seq<P.Event>)
    requires job.Valid() && P.After(job, es).Some? && P.After(job, es).value.rcv.phase == Receiving
    ensures Tracks(job, P.After(job, es).value.rcv, P.Taken(job, es))
  {
    if es == [] {
      StartTracks(job);
    } else {
      var front, e := es[..|es| - 1], es[|es| - 1];
      var s, fs := P.After(job, front).value, P.Taken(job, front);
      StillReceiving(job, s, e);
      LoopFollowsRun(job, front);
      C.InvAlways(job, front);
      if e.Take? {
        ReadTracks(job, s.rcv, fs, s.data[0]);
      } else if e.Stray? {
        ReadTracks(job, s.rcv, fs, e.frame);
      } else {
        OtherMatches(job, s, e, Loop(job, fs).rcv);
        assert P.Taken(job, es) == fs;
      }
    }
  }

  /** Frames whose bytes can be read back: by the direct loop, which stays in step on them, or by the
      relay loop. */
  ghost predicate Readable(job: P.Job, fs: seq<Frame>) {
    && ForLayout(job.Layout(), fs)
    && if job.path.Direct? then InStep(job.Layout(), fs) else Framable(job.source.aead, fs)
  }

  lemma ReadableMore(job: P.Job, fs: seq<Frame>, f: Frame)
    requires job.Valid() && Readable(job, fs) && C.FrameInv(job, f)
    ensures Readable(job, fs + [f])
  {
  }

  /** All frames read while the receiver is in step are such. */
  lemma {:induction false} TakenInStep(job: P.Job, es: seq<P.Event>)
    requires job.Valid() && P.After(job, es).Some? && !P.After(job, es).value.astray
    ensures Readable(job, P.Taken(job, es))
  {
    if es != [] {
      var front, e := es[..|es| - 1], es[|es| - 1];
      TakenInStep(job, front);
      C.InvAlways(job, front);
      if e.Take? {
        ReadableMore(job, P.Taken(job, front), P.After(job, front).value.data[0]);
      } else {
        assert P.Taken(job, es) == P.Taken(job, front);
      }
    }
  }

  /** Hence the direct loop, given the bytes of the frames of a run, is where the run's receiver is, and
      has read them all. */
  lemma BytesFollowRun(job: P.Job, es: seq<P.Event>)
    requires job.Valid() && job.path.Direct? && P.After(job, es).Some? && P.After(job, es).value.rcv.phase == Receiving
    requires !P.After(job, es).value.astray
    ensures Within(job.Layout(), Start(job))
    ensures var bytes := StreamBytes(P.Taken(job, es));
      var t := OnStream(job.source.aead, job.Layout(), Start(job), bytes, 0);
      && Matches(job.Layout(), Settle(P.After(job, es).value.rcv), t.rcv)
      && t.next == |bytes|
  {
    LoopFollowsRun(job, es);
    TakenInStep(job, es);
    var fs := P.Taken(job, es);
    assert StreamBytes(fs)[0..] == StreamBytes(fs);
    StreamOfFrames(job.source.aead, job.Layout(), Start(job), fs, StreamBytes(fs), 0);
  }
}
