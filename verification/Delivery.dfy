/** What a completed transfer has delivered, and what the sender was told along the way. */
module Delivery {
  import opened Bytes
  import opened Manifest
  import opened Wire
  import opened Receiver
  import opened Protocol
  import opened Conservation

  // ---- End-to-end delivery ----

  ghost predicate SkippedCorrect(job: Job)
    requires job.Valid()
  {
    forall i: nat :: i in job.skip && i < job.Count() ==> job.source.Has(job.start, i)
  }

  /** A receiver that has everything: the output, once the write under way has landed, is the source
      exactly if the chunks skipped were right in the output it started from. */
  lemma LandedIsSource(job: Job, r: Recv)
    requires job.Valid() && FileInv(job, r) && Range(job.Count()) <= r.done
    ensures Landed(job.Layout(), r) == job.source.file <==> SkippedCorrect(job)
  {
    var l, out := job.Layout(), Landed(job.Layout(), r);
    if SkippedCorrect(job) {
      forall i: nat | i < l.chunkCount && l.Offset(i) <= l.totalSize
        ensures Region(l, out, i) == Region(l, job.source.file, i)
      {
        assert HoldsAt(job, r.done, out, i);
        assert i in job.skip ==> job.source.Has(job.start, i);
      }
      SameChunksSameFile(l, out, job.source.file);
    }
    if out == job.source.file {
      forall i: nat | i in job.skip && i < job.Count()
        ensures job.source.Has(job.start, i)
      {
        assert HoldsAt(job, r.done, out, i);
      }
    }
  }

  /** Over every interleaving and any corruption: once the receiver has everything, the output is
      the source exactly if the chunks it asked to skip were right in the output it started from. */
  lemma DeliveredExactlyIf(job: Job, es: seq<Event>)
    requires job.Valid() && After(job, es).Some? && After(job, es).value.rcv.phase != Receiving
    ensures After(job, es).value.rcv.file == job.source.file <==> SkippedCorrect(job)
    ensures After(job, es).value.rcv.confirmed == job.Layout().totalSize
  {
    InvAlways(job, es);
    var r := After(job, es).value.rcv;
    assert Range(job.Count()) <= r.done;
    DoneBytesTotal(job.Layout(), r.done);
    assert Landed(job.Layout(), r) == r.file;
    LandedIsSource(job, r);
  }

  /** While receiving, the confirmed count is the size of the chunks received; it stays below the
      file size until the last one. */
  lemma ConfirmedCount(job: Job, es: seq<Event>)
    requires job.Valid() && After(job, es).Some?
    ensures var r := After(job, es).value.rcv;
      && r.confirmed == DoneBytes(job.Layout(), r.done, job.Count()) <= job.Layout().totalSize
      && (r.confirmed == job.Layout().totalSize <==> r.pending == {})
      && r.pending == Range(job.Count()) - r.done
  {
    InvAlways(job, es);
    DoneBytesTotal(job.Layout(), After(job, es).value.rcv.done);
  }

  // ---- Reports to the sender ----

  /** The bar never falls while the messages `cs` are read from bar position `bar`, it stays within
      `top`, and nothing follows Complete. */
  ghost predicate Rising(cs: seq<Ctrl>, bar: nat, top: nat) {
    if cs == [] then bar <= top
    else match cs[0]
      case Progress(bytes) => bar <= bytes && Rising(cs[1..], bytes, top)
      case ChunkNack(_) => Rising(cs[1..], bar, top)
      case Complete => cs[1..] == [] && bar <= top
  }

  /** Where the bar stands once every Progress message in `cs` has been read. */
  ghost function LastBar(cs: seq<Ctrl>, bar: nat): nat {
    if cs == [] then bar
    else LastBar(cs[1..], if cs[0].Progress? then cs[0].bytes else bar)
  }

  ghost predicate Ends(cs: seq<Ctrl>) {
    cs != [] && cs[|cs| - 1] == Complete
  }

  ghost predicate Over(r: Recv) {
    r.phase == Completed || r.phase == Deleted
  }

  ghost predicate ReportInv(job: Job, s: Sys) {
    && Rising(s.ctrl, s.snd.bar, s.rcv.confirmed)
    && (job.path.Relay? || s.rcv.sinceAck == 0 ==> LastBar(s.ctrl, s.snd.bar) == s.rcv.confirmed)
    && (job.path.Relay? || s.rcv.pending == {} ==> s.rcv.sinceAck == 0)
    && (s.snd.finished ==> s.ctrl == [])
    && (Over(s.rcv) <==> s.snd.finished || Ends(s.ctrl))
    && (!Over(s.rcv) ==> Complete !in s.ctrl)
  }

  lemma {:induction false} RisingAppend(cs: seq<Ctrl>, bar: nat, top: nat, c: Ctrl, top': nat)
    requires Rising(cs, bar, top) && Complete !in cs && top <= top'
    requires c.Progress? ==> c.bytes == top'
    ensures Rising(cs + [c], bar, top')
    ensures LastBar(cs + [c], bar) == if c.Progress? then c.bytes else LastBar(cs, bar)
  {
    if cs == [] {
      assert cs + [c] == [c];
    } else {
      assert (cs + [c])[1..] == cs[1..] + [c];
      RisingAppend(cs[1..], if cs[0].Progress? then cs[0].bytes else bar, top, c, top');
    }
  }

  lemma {:induction false} RisingHigher(cs: seq<Ctrl>, bar: nat, top: nat, top': nat)
    requires Rising(cs, bar, top) && top <= top'
    ensures Rising(cs, bar, top')
  {
    if cs != [] && !cs[0].Complete? {
      RisingHigher(cs[1..], if cs[0].Progress? then cs[0].bytes else bar, top, top');
    }
  }

  lemma {:induction false} RisingBounded(cs: seq<Ctrl>, bar: nat, top: nat)
    requires Rising(cs, bar, top)
    ensures bar <= top
  {
    if cs != [] && !cs[0].Complete? {
      RisingBounded(cs[1..], if cs[0].Progress? then cs[0].bytes else bar, top);
    }
  }

  /** `ReportInv` for a receiver that is still receiving. */
  ghost predicate ReceivingReports(path: Path, cs: seq<Ctrl>, bar: nat, r: Recv) {
    && Rising(cs, bar, r.confirmed)
    && (path.Relay? || r.sinceAck == 0 ==> LastBar(cs, bar) == r.confirmed)
    && (path.Relay? || r.pending == {} ==> r.sinceAck == 0)
    && Complete !in cs
  }

  lemma AcceptReports(path: Path, cs: seq<Ctrl>, bar: nat, l: Layout, r: Recv, i: nat, p: seq<Byte>)
    requires ReceivingReports(path, cs, bar, r)
    requires l.Valid() && Writable(l, r) && l.Offset(i) + |p| <= l.totalSize
    ensures var reply := if path.Direct? then DirectAccept(l, r, i, p) else RelayAccept(l, r, i, p);
      ReceivingReports(path, cs + reply.sent, bar, reply.rcv)
  {
    var confirmed := r.confirmed + |p|;
    RisingHigher(cs, bar, r.confirmed, confirmed);
    assert cs + [] == cs;
    RisingAppend(cs, bar, r.confirmed, Progress(confirmed), confirmed);
  }

  lemma DeliverReports(job: Job, s: Sys, f: Frame)
    requires job.Valid() && CountsInv(job, s.rcv) && ReportInv(job, s) && Due(job, s.rcv, f) && Reads(job, s.rcv)
    ensures ReportInv(job, Deliver(job, s, f))
  {
    ReplyCases(job, s.rcv, f);
    assert s.ctrl + [] == s.ctrl;
    if f.index in s.rcv.pending {
      if Verdict(job.source.aead, job.Layout(), f) == None {
        RisingAppend(s.ctrl, s.snd.bar, s.rcv.confirmed, ChunkNack(f.index), s.rcv.confirmed);
      } else {
        AcceptReports(job.path, s.ctrl, s.snd.bar, job.Layout(), s.rcv, f.index, job.source.Chunk(f.index));
      }
    }
  }

  lemma TakeCtrlReports(job: Job, s: Sys)
    requires job.Valid() && Inv(job, s) && ReportInv(job, s) && Enabled(job, s, TakeCtrl)
    ensures ReportInv(job, DoTakeCtrl(job, s))
    ensures s.snd.bar <= DoTakeCtrl(job, s).snd.bar
  {
    RisingBounded(s.ctrl, s.snd.bar, s.rcv.confirmed);
    if s.ctrl[0].Complete? {
      assert s.ctrl[|s.ctrl| - 1] == Complete;
      DoneBytesTotal(job.Layout(), s.rcv.done);
    }
  }

  lemma FinishReports(job: Job, s: Sys)
    requires job.Valid() && PhaseInv(job, s.rcv) && ReportInv(job, s) && Enabled(job, s, Finish)
    ensures ReportInv(job, DoFinish(s))
  {
    assert s.ctrl + [] == s.ctrl;
    if s.rcv.phase == Saved {
      RisingAppend(s.ctrl, s.snd.bar, s.rcv.confirmed, Complete, s.rcv.confirmed);
    }
  }

  lemma OtherReports(job: Job, s: Sys, e: Event)
    requires job.Valid() && ReportInv(job, s) && Enabled(job, s, e)
    requires !e.Take? && !e.Stray? && !e.TakeCtrl? && !e.Finish?
    ensures ReportInv(job, Step(job, s, e))
  {
  }

  lemma ReportsKept(job: Job, s: Sys, e: Event)
    requires job.Valid() && Inv(job, s) && ReportInv(job, s) && Enabled(job, s, e)
    ensures ReportInv(job, Step(job, s, e))
    ensures s.snd.bar <= Step(job, s, e).snd.bar
  {
    if e.Take? {
      TakeDue(job, s);
      DeliverReports(job, s.(data := s.data[1..]), s.data[0]);
    } else if e.Stray? {
      StrayDue(job, s, e.frame);
      DeliverReports(job, s.(astray := true), e.frame);
    } else if e.TakeCtrl? {
      TakeCtrlReports(job, s);
    } else if e.Finish? {
      FinishReports(job, s);
    } else {
      OtherReports(job, s, e);
    }
  }

  lemma {:induction false} ReportsAlways(job: Job, es: seq<Event>)
    requires job.Valid() && After(job, es).Some?
    ensures ReportInv(job, After(job, es).value)
  {
    if es != [] {
      ReportsAlways(job, es[..|es| - 1]);
      InvAlways(job, es[..|es| - 1]);
      ReportsKept(job, After(job, es[..|es| - 1]).value, es[|es| - 1]);
    }
  }

  /** The sender's bar never falls and never passes what the receiver has confirmed. */
  lemma BarRises(job: Job, es: seq<Event>, e: Event)
    requires job.Valid() && After(job, es + [e]).Some?
    ensures After(job, es).Some?
    ensures var s, s' := After(job, es).value, After(job, es + [e]).value;
      s.snd.bar <= s'.snd.bar <= s'.rcv.confirmed
  {
    var all := es + [e];
    assert all[..|all| - 1] == es;
    InvAlways(job, es);
    ReportsAlways(job, es);
    ReportsKept(job, After(job, es).value, e);
    var s := After(job, all).value;
    RisingBounded(s.ctrl, s.snd.bar, s.rcv.confirmed);
  }

  /** When the receiver has everything, the Progress messages already sent bring the bar to the file
      size: Complete adds nothing. */
  lemma LastReportIsTotal(job: Job, es: seq<Event>)
    requires job.Valid() && After(job, es).Some? && After(job, es).value.rcv.pending == {}
    ensures LastBar(After(job, es).value.ctrl, After(job, es).value.snd.bar) == job.Layout().totalSize
  {
    ReportsAlways(job, es);
    ConfirmedCount(job, es);
  }

  // ---- Acknowledgement and checkpoint counts ----

  ghost function SavedSet(r: Recv): set<nat> {
    if r.saved.Some? then r.saved.value else {}
  }

  ghost predicate AckInv(job: Job, s: Sys) {
    AckCounts(job, s.rcv, s.acks)
  }

  /** `m` chunks were received in this run. */
  ghost predicate AckCounts(job: Job, r: Recv, acks: nat) {
    var m := |r.done - job.skip|;
    && (job.path.Relay? ==> acks == m)
    && (job.path.Direct? ==> r.sinceAck < ACK_INTERVAL)
    && (job.path.Direct? && r.pending != {} ==> m == ACK_INTERVAL * acks + r.sinceAck)
    && (job.path.Direct? && r.pending == {} ==> acks == CeilDiv(m, ACK_INTERVAL))
  }

  /** The state file is still the one the connection started from. */
  ghost predicate NotSaved(job: Job, r: Recv) {
    r.saved == job.kept
  }

  /** How far the saved state may lag behind: by less than 16 chunks received since the start or since
      the last save. */
  ghost predicate DirectSaves(job: Job, r: Recv) {
    && (r.saveDue <==> r.sinceSave == SAVE_INTERVAL) && r.sinceSave <= SAVE_INTERVAL
    && ((NotSaved(job, r) && |r.done - job.skip| == r.sinceSave)
        || (r.saved.Some? && r.saved.value <= r.done && |r.done - r.saved.value| == r.sinceSave
            && |r.done - job.skip| >= SAVE_INTERVAL))
  }

  /** On the relay path: by less than 16, as saves happen at multiples of 16 chunks done. */
  ghost predicate RelaySaves(job: Job, r: Recv) {
    !r.saveDue ==>
      var due := |r.done| - |r.done| % SAVE_INTERVAL;
      || (NotSaved(job, r) && due <= |job.skip|)
      || (r.saved.Some? && r.saved.value <= r.done && due <= |r.saved.value|)
  }

  ghost predicate SaveInv(job: Job, r: Recv) {
    && job.skip <= r.done
    && (r.phase == Receiving ==> if job.path.Direct? then DirectSaves(job, r) else RelaySaves(job, r))
  }

  lemma SubsetSizes(a: set<nat>, b: set<nat>)
    requires a <= b
    ensures |b - a| == |b| - |a|
  {
    assert b == a + (b - a);
  }

  ghost function AcceptReply(job: Job, r: Recv, i: nat, p: seq<Byte>): Reply
    requires job.source.layout.Valid() && Writable(job.Layout(), r)
    requires job.Layout().Offset(i) + |p| <= job.Layout().totalSize
  {
    if job.path.Direct? then DirectAccept(job.Layout(), r, i, p) else RelayAccept(job.Layout(), r, i, p)
  }

  lemma AcceptAcks(job: Job, r: Recv, acks: nat, i: nat, p: seq<Byte>)
    requires job.source.layout.Valid() && Writable(job.Layout(), r)
    requires job.Layout().Offset(i) + |p| <= job.Layout().totalSize
    requires i in r.pending && i !in r.done && job.skip <= r.done && AckCounts(job, r, acks)
    ensures var reply := AcceptReply(job, r, i, p); AckCounts(job, reply.rcv, acks + |reply.sent|)
  {
    assert r.done + {i} - job.skip == (r.done - job.skip) + {i};
  }

  lemma RelayAcceptSaves(job: Job, r: Recv, r': Recv, i: nat)
    requires job.path.Relay? && i !in r.done && r.phase == Receiving && !r.saveDue && SaveInv(job, r)
    requires r'.done == r.done + {i} && r'.saved == r.saved && r'.phase == Receiving
    requires r'.saveDue <==> |r'.done| % SAVE_INTERVAL == 0
    ensures SaveInv(job, r')
  {
    assert |r.done + {i}| == |r.done| + 1;
  }

  lemma DirectAcceptSaves(job: Job, r: Recv, r': Recv, i: nat)
    requires job.path.Direct? && i !in r.done && r.phase == Receiving && !r.saveDue && SaveInv(job, r)
    requires r'.done == r.done + {i} && r'.saved == r.saved && r'.phase == Receiving
    requires r'.sinceSave == r.sinceSave + 1 && (r'.saveDue <==> r'.sinceSave >= SAVE_INTERVAL)
    ensures SaveInv(job, r')
  {
    assert r.done + {i} - job.skip == (r.done - job.skip) + {i};
    if r.saved.Some? && r.saved.value <= r.done {
      assert r.done + {i} - r.saved.value == (r.done - r.saved.value) + {i};
    }
  }

  lemma AcceptSaves(job: Job, r: Recv, i: nat, p: seq<Byte>)
    requires job.source.layout.Valid() && Writable(job.Layout(), r)
    requires job.Layout().Offset(i) + |p| <= job.Layout().totalSize
    requires i !in r.done && r.phase == Receiving && !r.saveDue && SaveInv(job, r)
    ensures SaveInv(job, AcceptReply(job, r, i, p).rcv)
  {
    if job.path.Relay? {
      RelayAcceptSaves(job, r, AcceptReply(job, r, i, p).rcv, i);
    } else {
      DirectAcceptSaves(job, r, AcceptReply(job, r, i, p).rcv, i);
    }
  }

  lemma ReplyCounts(job: Job, r: Recv, acks: nat, f: Frame)
    requires job.Valid() && Due(job, r, f) && CountsInv(job, r) && Writable(job.Layout(), r)
    requires r.phase == Receiving && !r.saveDue && AckCounts(job, r, acks) && SaveInv(job, r)
    ensures var reply := Receive(job.path, job.source.aead, job.Layout(), r, f);
      && AckCounts(job, reply.rcv, acks + if reply.sent != [] && reply.sent[0].Progress? then 1 else 0)
      && SaveInv(job, reply.rcv)
  {
    ReplyCases(job, r, f);
    if f.index in r.pending && Verdict(job.source.aead, job.Layout(), f) != None {
      AcceptAcks(job, r, acks, f.index, job.source.Chunk(f.index));
      AcceptSaves(job, r, f.index, job.source.Chunk(f.index));
    }
  }

  lemma SaveCounts(job: Job, r: Recv)
    requires SaveInv(job, r) && r.saveDue && r.phase == Receiving
    ensures SaveInv(job, r.(saved := Some(r.done), saveDue := false, sinceSave := 0))
  {
    assert r.done - r.done == {};
  }

  lemma OtherCounts(job: Job, s: Sys, e: Event)
    requires job.Valid() && AckInv(job, s) && SaveInv(job, s.rcv) && PhaseInv(job, s.rcv)
    requires Enabled(job, s, e) && !e.Take? && !e.Stray?
    ensures AckInv(job, Step(job, s, e)) && SaveInv(job, Step(job, s, e).rcv)
  {
    if e.Save? {
      SaveCounts(job, s.rcv);
    }
  }

  lemma CountsKept(job: Job, s: Sys, e: Event)
    requires job.Valid() && Inv(job, s) && AckInv(job, s) && SaveInv(job, s.rcv) && Enabled(job, s, e)
    ensures AckInv(job, Step(job, s, e)) && SaveInv(job, Step(job, s, e).rcv)
  {
    if e.Take? {
      TakeDue(job, s);
      ReplyCounts(job, s.rcv, s.acks, s.data[0]);
    } else if e.Stray? {
      StrayDue(job, s, e.frame);
      ReplyCounts(job, s.rcv, s.acks, e.frame);
    } else {
      OtherCounts(job, s, e);
    }
  }

  lemma {:induction false} CountsAlways(job: Job, es: seq<Event>)
    requires job.Valid() && After(job, es).Some?
    ensures AckInv(job, After(job, es).value) && SaveInv(job, After(job, es).value.rcv)
  {
    if es == [] {
      assert job.skip - job.skip == {};
    } else {
      CountsAlways(job, es[..|es| - 1]);
      InvAlways(job, es[..|es| - 1]);
      CountsKept(job, After(job, es[..|es| - 1]).value, es[|es| - 1]);
    }
  }

  lemma AllDone(job: Job, r: Recv)
    requires job.Valid() && CountsInv(job, r) && r.pending == {}
    ensures r.done == Range(job.Count())
  {
    assert Range(job.Count()) <= r.done;
  }

  /** For m chunks to receive: m Progress messages on the relay path, m/4 rounded up on the direct path. */
  lemma ProgressMessages(job: Job, es: seq<Event>)
    requires job.Valid() && After(job, es).Some? && After(job, es).value.rcv.pending == {}
    ensures var m := |Range(job.Count()) - job.skip|;
      After(job, es).value.acks == if job.path.Direct? then (m + 3) / 4 else m
  {
    CountsAlways(job, es);
    InvAlways(job, es);
    AllDone(job, After(job, es).value.rcv);
  }

  lemma SavedLag(job: Job, r: Recv)
    requires job.Valid() && r.phase == Receiving && !r.saveDue && SaveInv(job, r)
    ensures |r.done - SavedSet(r)| < 16
  {
    SubsetSizes(job.skip, r.done);
    if r.saved.Some? && r.saved.value <= r.done {
      SubsetSizes(r.saved.value, r.done);
    }
    var missing := r.done - SavedSet(r);
    if NotSaved(job, r) && job.kept != Some(job.skip) {
      assert job.skip == {};
      SubsetSizes(missing, r.done);
    }
  }

  /** Whenever the receiver is about to read a frame, fewer than 16 received chunks are missing from
      the saved state. */
  lemma CheckpointLag(job: Job, es: seq<Event>)
    requires job.Valid() && After(job, es).Some?
    requires After(job, es).value.rcv.phase == Receiving && !After(job, es).value.rcv.saveDue
    ensures var r := After(job, es).value.rcv; |r.done - SavedSet(r)| < 16
  {
    CountsAlways(job, es);
    SavedLag(job, After(job, es).value.rcv);
  }

  /** A direct receiver that has received fewer than 16 chunks has not touched the state file. */
  lemma NotSavedBefore(job: Job, es: seq<Event>)
    requires job.Valid() && job.path.Direct? && After(job, es).Some? && After(job, es).value.rcv.phase == Receiving
    requires |After(job, es).value.rcv.done - job.skip| < 16
    ensures After(job, es).value.rcv.saved == job.kept
  {
    CountsAlways(job, es);
  }

  // ---- When the state is saved ----

  /** The state file is the one found at the start, or was saved at a multiple of sixteen: of the chunks
      received in this connection on the direct path, of all chunks done on the relay path. */
  ghost predicate SavedAtMultiple(job: Job, r: Recv) {
    r.phase == Receiving ==>
      || r.saved == job.kept
      || (r.saved.Some? && (if job.path.Direct? then |r.saved.value - job.skip| else |r.saved.value|) % 16 == 0)
  }

  /** A save is due only at such a moment. */
  ghost predicate DueAtMultiple(job: Job, r: Recv) {
    && (r.phase == Receiving && r.saveDue ==>
          (if job.path.Direct? then |r.done - job.skip| else |r.done|) % 16 == 0)
    && (r.phase == Receiving && job.path.Direct? ==> (|r.done - job.skip| - r.sinceSave) % 16 == 0 && r.sinceSave <= 16)
  }

  lemma AcceptMultiples(job: Job, r: Recv, i: nat, p: seq<Byte>)
    requires job.source.layout.Valid() && Writable(job.Layout(), r)
    requires job.Layout().Offset(i) + |p| <= job.Layout().totalSize && i !in r.done && i !in job.skip && !r.saveDue
    requires r.phase == Receiving && r.sinceSave < 16 && SavedAtMultiple(job, r) && DueAtMultiple(job, r)
    ensures var r' := AcceptReply(job, r, i, p).rcv; SavedAtMultiple(job, r') && DueAtMultiple(job, r')
  {
    assert r.done + {i} - job.skip == (r.done - job.skip) + {i};
  }

  lemma ReplyMultiples(job: Job, r: Recv, f: Frame)
    requires job.Valid() && Due(job, r, f) && Reads(job, r) && CountsInv(job, r) && SaveInv(job, r)
    requires SavedAtMultiple(job, r) && DueAtMultiple(job, r)
    ensures var r' := Receive(job.path, job.source.aead, job.Layout(), r, f).rcv;
      SavedAtMultiple(job, r') && DueAtMultiple(job, r')
  {
    ReplyCases(job, r, f);
    if f.index in r.pending && Verdict(job.source.aead, job.Layout(), f) != None {
      if job.path.Direct? {
        assert r.sinceSave < 16;
        AcceptMultiples(job, r, f.index, job.source.Chunk(f.index));
      }
    }
  }

  lemma SaveMultiples(job: Job, r: Recv)
    requires r.saveDue && DueAtMultiple(job, r)
    ensures var r' := r.(saved := Some(r.done), saveDue := false, sinceSave := 0);
      SavedAtMultiple(job, r') && DueAtMultiple(job, r')
  {
  }

  lemma StillMultiples(job: Job, r: Recv, r': Recv)
    requires SavedAtMultiple(job, r) && DueAtMultiple(job, r)
    requires r'.saved == r.saved && r'.done == r.done && r'.saveDue == r.saveDue && r'.sinceSave == r.sinceSave
    requires r'.phase == r.phase
    ensures SavedAtMultiple(job, r') && DueAtMultiple(job, r')
  {
  }

  lemma OtherMultiples(job: Job, s: Sys, e: Event)
    requires job.Valid() && Enabled(job, s, e) && !e.Take? && !e.Stray?
    requires SavedAtMultiple(job, s.rcv) && DueAtMultiple(job, s.rcv)
    ensures var r' := Step(job, s, e).rcv; SavedAtMultiple(job, r') && DueAtMultiple(job, r')
  {
    if e.Save? {
      SaveMultiples(job, s.rcv);
    } else if e.Finish? {
      assert NextPhase(s.rcv).rcv.phase != Receiving;
    } else {
      StillMultiples(job, s.rcv, Step(job, s, e).rcv);
    }
  }

  lemma {:induction false} MultiplesAlways(job: Job, es: seq<Event>)
    requires job.Valid() && After(job, es).Some?
    ensures SavedAtMultiple(job, After(job, es).value.rcv) && DueAtMultiple(job, After(job, es).value.rcv)
  {
    if es == [] {
      assert job.skip - job.skip == {};
    } else {
      var front, e := es[..|es| - 1], es[|es| - 1];
      var s := After(job, front).value;
      MultiplesAlways(job, front);
      InvAlways(job, front);
      CountsAlways(job, front);
      if e.Take? {
        TakeDue(job, s);
        ReplyMultiples(job, s.rcv, s.data[0]);
      } else if e.Stray? {
        StrayDue(job, s, e.frame);
        ReplyMultiples(job, s.rcv, e.frame);
      } else {
        OtherMultiples(job, s, e);
      }
    }
  }

  /** While chunks are received, the state is saved exactly at multiples of sixteen. */
  lemma SavedExactlyAtMultiples(job: Job, es: seq<Event>)
    requires job.Valid() && After(job, es).Some? && After(job, es).value.rcv.phase == Receiving
    ensures var r := After(job, es).value.rcv;
      || r.saved == job.kept
      || (r.saved.Some? && (if job.path.Direct? then |r.saved.value - job.skip| else |r.saved.value|) % 16 == 0)
  {
    MultiplesAlways(job, es);
  }
}
