/** The send loop against the transition system: what the direct sender puts on the data stream in a
    run, with the control loop, the network and the receiver interleaved in any way, is what the
    loop of p2pshare-core/src/transfer/sender.rs writes for the NACKs its control loop has read, in order. */
module SendRefinement {
  import opened Bytes
  import opened Manifest
  import opened Wire
  import opened Streaming
  import opened Receiver
  import opened Protocol
  import C = Conservation
  import Seals
  import L = SendLoop

  /** The frames put on the data channel in the run `es`, as they were sent. */
  ghost function SentFrames(job: Job, es: seq<Event>): seq<Frame>
    requires job.Valid() && After(job, es).Some?
  {
    if es == [] then []
    else
      var front := es[..|es| - 1];
      SentFrames(job, front) + Put(After(job, front).value.data, After(job, es).value.data)
  }

  function Put(before: seq<Frame>, after: seq<Frame>): seq<Frame> {
    if |after| > |before| then [after[|after| - 1]] else []
  }

  /** The frames `fs` are those of the first `next` turns, whose NACK batches were `nacks`, and of the
      NACKs in `late`, served after the last turn. */
  ghost predicate Follows(job: Job, snd: Sender, fs: seq<Frame>, nacks: seq<seq<nat>>, late: seq<nat>)
    requires job.Valid()
  {
    && |nacks| == snd.next <= |job.Todo()|
    && (snd.stage == Polling ==> snd.next > 0)
    && (snd.stage == Writing || snd.stage == Polling ==> late == [])
    && L.AllChunks(job.source, nacks) && L.Chunks(job.source, late)
    && var order := L.Order(job.Todo()[..snd.next], nacks, late);
       L.Chunks(job.source, order) && fs == L.Frames(job.source, order)
  }

  /** The NACKs the control loop read in the run `es`. */
  ghost function NacksRead(job: Job, es: seq<Event>): seq<nat>
    requires job.Valid() && After(job, es).Some?
  {
    if es == [] then []
    else
      var front := es[..|es| - 1];
      NacksRead(job, front) + ReadBy(After(job, front).value, es[|es| - 1])
  }

  function ReadBy(s: Sys, e: Event): seq<nat> {
    if e.TakeCtrl? && s.ctrl != [] && s.ctrl[0].ChunkNack? then [s.ctrl[0].index] else []
  }

  function Concat(nacks: seq<seq<nat>>): seq<nat> {
    if nacks == [] then [] else nacks[0] + Concat(nacks[1..])
  }

  function HeldSeq(held: Option<nat>): seq<nat> {
    if held.Some? then [held.value] else []
  }

  /** The NACKs `read` are those served so far, the one being served, and those in the channel, in order. */
  ghost predicate Serves(snd: Sender, nacks: seq<seq<nat>>, late: seq<nat>, read: seq<nat>) {
    Concat(nacks) + late + HeldSeq(snd.held) + snd.queue == read
  }

  lemma {:induction false} ConcatLast(nacks: seq<seq<nat>>, found: seq<nat>)
    ensures Concat(nacks + [found]) == Concat(nacks) + found
  {
    if nacks == [] {
      assert [found][1..] == [];
    } else {
      ConcatLast(nacks[1..], found);
      assert (nacks + [found])[1..] == nacks[1..] + [found];
    }
  }

  lemma {:induction false} OrderTurn(xs: seq<nat>, x: nat, nacks: seq<seq<nat>>, found: seq<nat>)
    requires |nacks| == |xs|
    ensures L.Order(xs + [x], nacks + [found], []) == L.Order(xs, nacks, []) + [x] + found
  {
    if xs == [] {
      assert xs + [x] == [x] && nacks + [found] == [found];
      assert L.Order([], [], []) == [];
    } else {
      OrderTurn(xs[1..], x, nacks[1..], found);
      assert (xs + [x])[1..] == xs[1..] + [x] && (nacks + [found])[1..] == nacks[1..] + [found];
    }
  }

  lemma {:induction false} OrderLate(xs: seq<nat>, nacks: seq<seq<nat>>, late: seq<nat>, i: nat)
    requires |nacks| == |xs|
    ensures L.Order(xs, nacks, late + [i]) == L.Order(xs, nacks, late) + [i]
  {
    if xs != [] {
      OrderLate(xs[1..], nacks[1..], late, i);
    }
  }

  /** One more frame, of chunk `i`. */
  lemma FramesAppend(s: Source, order: seq<nat>, i: nat)
    requires s.WellSized() && L.Chunks(s, order) && i < s.layout.chunkCount
    ensures s.layout.Offset(i) <= s.layout.totalSize
    ensures L.Chunks(s, order + [i]) && L.Frames(s, order + [i]) == L.Frames(s, order) + [s.Honest(i)]
  {
    ChunkInside(s.layout, i);
  }

  lemma SendNextFollows(job: Job, s: Sys, fs: seq<Frame>, nacks: seq<seq<nat>>, late: seq<nat>)
    requires job.Valid() && job.path.Direct? && Enabled(job, s, SendNext) && Follows(job, s.snd, fs, nacks, late)
    ensures var i := job.Todo()[s.snd.next];
      && i in job.Todo() && job.Layout().Offset(i) <= job.Layout().totalSize
      && DoSendNext(job, s).data == s.data + [job.source.Honest(i)]
      && Follows(job, DoSendNext(job, s).snd, fs + [job.source.Honest(i)], nacks + [[]], [])
    ensures late == [] && Concat(nacks + [[]]) == Concat(nacks)
  {
    ConcatLast(nacks, []);
    var todo, n := job.Todo(), s.snd.next;
    assert todo[n] in todo && todo[..n + 1] == todo[..n] + [todo[n]];
    OrderTurn(todo[..n], todo[n], nacks, []);
    FramesAppend(job.source, L.Order(todo[..n], nacks, []), todo[n]);
  }

  /** A retransmission between two turns joins the batch of the turn before it. */
  lemma BatchGrows(job: Job, snd: Sender, fs: seq<Frame>, nacks: seq<seq<nat>>, i: nat) returns (nacks': seq<seq<nat>>)
    requires job.Valid() && snd.stage == Polling && Follows(job, snd, fs, nacks, []) && i < job.Count()
    ensures job.Layout().Offset(i) <= job.Layout().totalSize
    ensures Follows(job, snd, fs + [job.source.Honest(i)], nacks', [])
    ensures Concat(nacks') == Concat(nacks) + [i]
  {
    var todo, n := job.Todo(), snd.next;
    var xs, front, found := todo[..n - 1], nacks[..n - 1], nacks[n - 1];
    assert todo[..n] == xs + [todo[n - 1]] && nacks == front + [found];
    nacks' := front + [found + [i]];
    ConcatLast(front, found);
    ConcatLast(front, found + [i]);
    OrderTurn(xs, todo[n - 1], front, found);
    OrderTurn(xs, todo[n - 1], front, found + [i]);
    var order := L.Order(todo[..n], nacks, []);
    assert L.Order(todo[..n], nacks', []) == order + [i];
    FramesAppend(job.source, order, i);
    assert L.Chunks(job.source, found);
  }

  lemma LateGrows(job: Job, snd: Sender, fs: seq<Frame>, nacks: seq<seq<nat>>, late: seq<nat>, i: nat)
    requires job.Valid() && (snd.stage == Serving || snd.stage == Ended) && Follows(job, snd, fs, nacks, late)
    requires i < job.Count()
    ensures job.Layout().Offset(i) <= job.Layout().totalSize
    ensures Follows(job, snd, fs + [job.source.Honest(i)], nacks, late + [i])
  {
    OrderLate(job.Todo()[..snd.next], nacks, late, i);
    FramesAppend(job.source, L.Order(job.Todo()[..snd.next], nacks, late), i);
  }

  lemma ResendFollows(job: Job, s: Sys, fs: seq<Frame>, nacks: seq<seq<nat>>, late: seq<nat>)
    returns (nacks': seq<seq<nat>>, late': seq<nat>)
    requires job.Valid() && job.path.Direct? && C.SenderInv(job, s) && Enabled(job, s, Resend)
    requires Follows(job, s.snd, fs, nacks, late)
    ensures var i := s.snd.held.value;
      && job.Layout().Offset(i) <= job.Layout().totalSize
      && DoResend(job, s).data == s.data + [job.source.Honest(i)]
      && Follows(job, DoResend(job, s).snd, fs + [job.source.Honest(i)], nacks', late')
      && Concat(nacks') + late' == Concat(nacks) + late + [i]
  {
    nacks', late' := nacks, late;
    if s.snd.stage == Polling {
      nacks' := BatchGrows(job, s.snd, fs, nacks, s.snd.held.value);
    } else {
      LateGrows(job, s.snd, fs, nacks, late, s.snd.held.value);
      late' := late + [s.snd.held.value];
    }
  }

  /** The other events put nothing on the data channel. */
  lemma OtherFollows(job: Job, s: Sys, e: Event, fs: seq<Frame>, nacks: seq<seq<nat>>, late: seq<nat>)
    requires job.Valid() && job.path.Direct? && C.SenderInv(job, s) && Enabled(job, s, e) && !e.SendNext? && !e.Resend?
    requires Follows(job, s.snd, fs, nacks, late)
    ensures |Step(job, s, e).data| <= |s.data| && Follows(job, Step(job, s, e).snd, fs, nacks, late)
  {
  }

  /** Sending and resending moves the NACK being served to those served. */
  lemma SentServes(snd: Sender, snd': Sender, nacks: seq<seq<nat>>, late: seq<nat>,
                   nacks': seq<seq<nat>>, late': seq<nat>, read: seq<nat>)
    requires Serves(snd, nacks, late, read) && snd'.held == None && snd'.queue == snd.queue
    requires Concat(nacks') + late' == Concat(nacks) + late + HeldSeq(snd.held)
    ensures Serves(snd', nacks', late', read)
  {
    assert Concat(nacks') + late' + [] == Concat(nacks') + late';
  }

  lemma ReadServes(job: Job, s: Sys, nacks: seq<seq<nat>>, late: seq<nat>, read: seq<nat>)
    requires job.Valid() && job.path.Direct? && Enabled(job, s, TakeCtrl) && Serves(s.snd, nacks, late, read)
    ensures Serves(DoTakeCtrl(job, s).snd, nacks, late, read + ReadBy(s, TakeCtrl))
  {
    var got := ReadBy(s, TakeCtrl);
    assert DoTakeCtrl(job, s).snd.queue == s.snd.queue + got;
    Assoc(Concat(nacks) + late + HeldSeq(s.snd.held), s.snd.queue, got);
  }

  lemma OtherServes(job: Job, s: Sys, e: Event, nacks: seq<seq<nat>>, late: seq<nat>, read: seq<nat>)
    requires job.Valid() && job.path.Direct? && Enabled(job, s, e) && !e.SendNext? && !e.Resend?
    requires Serves(s.snd, nacks, late, read)
    ensures Serves(Step(job, s, e).snd, nacks, late, read + ReadBy(s, e))
  {
    if e.TakeCtrl? {
      ReadServes(job, s, nacks, late, read);
    } else if e.Poll? && s.snd.queue != [] {
      PickedUp(Concat(nacks) + late, s.snd.queue);
    }
  }

  lemma PickedUp(served: seq<nat>, queue: seq<nat>)
    requires queue != []
    ensures served + [] + queue == served + [queue[0]] + queue[1..]
  {
  }

  lemma StepFollows(job: Job, s: Sys, e: Event, fs: seq<Frame>, nacks: seq<seq<nat>>, late: seq<nat>, read: seq<nat>)
    returns (nacks': seq<seq<nat>>, late': seq<nat>)
    requires job.Valid() && job.path.Direct? && C.SenderInv(job, s) && Enabled(job, s, e)
    requires Follows(job, s.snd, fs, nacks, late) && Serves(s.snd, nacks, late, read)
    ensures Follows(job, Step(job, s, e).snd, fs + Put(s.data, Step(job, s, e).data), nacks', late')
    ensures Serves(Step(job, s, e).snd, nacks', late', read + ReadBy(s, e))
  {
    if e.SendNext? {
      SendNextFollows(job, s, fs, nacks, late);
      nacks', late' := nacks + [[]], [];
      SentServes(s.snd, DoSendNext(job, s).snd, nacks, late, nacks', late', read);
    } else if e.Resend? {
      nacks', late' := ResendFollows(job, s, fs, nacks, late);
      SentServes(s.snd, DoResend(job, s).snd, nacks, late, nacks', late', read);
    } else {
      nacks', late' := nacks, late;
      OtherFollows(job, s, e, fs, nacks, late);
      OtherServes(job, s, e, nacks, late, read);
    }
    assert fs + [] == fs && read + [] == read;
  }

  lemma {:induction false} SendsFollow(job: Job, es: seq<Event>) returns (nacks: seq<seq<nat>>, late: seq<nat>)
    requires job.Valid() && job.path.Direct? && After(job, es).Some?
    ensures Follows(job, After(job, es).value.snd, SentFrames(job, es), nacks, late)
    ensures Serves(After(job, es).value.snd, nacks, late, NacksRead(job, es))
  {
    if es == [] {
      nacks, late := [], [];
    } else {
      var front := es[..|es| - 1];
      C.InvAlways(job, front);
      nacks, late := SendsFollow(job, front);
      nacks, late := StepFollows(job, After(job, front).value, es[|es| - 1],
                                 SentFrames(job, front), nacks, late, NacksRead(job, front));
    }
  }

  /** In every run after which the send loop has returned, the data stream got the bytes that the
      read-ahead loop writes, and the NACKs it served, after each frame and at the end, are the NACKs
      the control loop has read, all of them and in order. */
  lemma SendLoopFollowsRun(job: Job, es: seq<Event>) returns (nacks: seq<seq<nat>>, late: seq<nat>)
    requires job.Valid() && job.path.Direct? && After(job, es).Some? && After(job, es).value.snd.stage == Ended
    ensures |nacks| == |job.Todo()| && L.Chunks(job.source, L.Order(job.Todo(), nacks, late))
    ensures Concat(nacks) + late == NacksRead(job, es)
    ensures SentFrames(job, es) == L.Frames(job.source, L.Order(job.Todo(), nacks, late))
    ensures StreamBytes(SentFrames(job, es)) == L.Flat(L.Sent(job.source, L.Order(job.Todo(), nacks, late)))
  {
    C.InvAlways(job, es);
    nacks, late := SendsFollow(job, es);
    assert job.Todo()[..|job.Todo()|] == job.Todo();
    assert Concat(nacks) + late + [] + [] == Concat(nacks) + late;
    L.SentIsStream(job.source, L.Order(job.Todo(), nacks, late));
  }

  // ---- What a run seals ----

  /** The sealing operations for these frames. */
  function SealOps(fs: seq<Frame>): seq<Seals.Op> {
    seq(|fs|, k requires 0 <= k < |fs| => Seals.SendChunk(fs[k].index))
  }

  /** The frame the sender builds for its chunk. */
  ghost predicate OwnFrame(job: Job, f: Frame)
    requires job.Valid()
  {
    && f.index < job.Count() && job.Layout().Offset(f.index) <= job.Layout().totalSize
    && f == job.source.Honest(f.index)
  }

  /** The frame put on the data channel by an event, if there is one, is the sender's frame of a chunk. */
  lemma PutHonest(job: Job, s: Sys, e: Event)
    requires job.Valid() && Enabled(job, s, e)
    ensures var put := Put(s.data, Step(job, s, e).data);
      forall f :: f in put ==> OwnFrame(job, f)
  {
    if e.SendNext? {
      assert job.Todo()[s.snd.next] in job.Todo();
      ChunkInside(job.Layout(), job.Todo()[s.snd.next]);
    } else if e.Resend? {
      ChunkInside(job.Layout(), s.snd.held.value);
    }
  }

  /** On both paths, in every run: each frame sent is the sender's frame of its chunk, so that what was
      sealed for the frames is what the sealing operations of their chunks seal. */
  lemma {:induction false} SentHonest(job: Job, es: seq<Event>)
    requires job.Valid() && After(job, es).Some?
    ensures forall f :: f in SentFrames(job, es) ==> OwnFrame(job, f)
  {
    if es != [] {
      var front := es[..|es| - 1];
      var put := Put(After(job, front).value.data, After(job, es).value.data);
      SentHonest(job, front);
      PutHonest(job, After(job, front).value, es[|es| - 1]);
      forall f | f in SentFrames(job, es)
        ensures OwnFrame(job, f)
      {
        assert f in SentFrames(job, front) || f in put;
      }
    }
  }

  lemma FramesOps(s: Source, order: seq<nat>)
    requires s.WellSized() && L.Chunks(s, order)
    ensures SealOps(L.Frames(s, order)) == L.ChunkOps(order)
  {
  }

  /** In a finished direct run those are the operations the read-ahead loop performs on its session. */
  lemma RunSeals(job: Job, es: seq<Event>) returns (nacks: seq<seq<nat>>, late: seq<nat>)
    requires job.Valid() && job.path.Direct? && After(job, es).Some? && After(job, es).value.snd.stage == Ended
    ensures |nacks| == |job.Todo()| && Concat(nacks) + late == NacksRead(job, es)
    ensures SealOps(SentFrames(job, es)) == L.ChunkOps(L.Order(job.Todo(), nacks, late))
  {
    nacks, late := SendLoopFollowsRun(job, es);
    FramesOps(job.source, L.Order(job.Todo(), nacks, late));
  }

  // ---- NACKs are served between chunks ----

  lemma {:induction false} OrderLength(xs: seq<nat>, nacks: seq<seq<nat>>, late: seq<nat>)
    requires |nacks| == |xs|
    ensures |L.Order(xs, nacks, late)| == |xs| + |Concat(nacks)| + |late|
    decreases |xs|
  {
    if xs != [] {
      OrderLength(xs[1..], nacks[1..], late);
    }
  }

  /** The event by which the direct send loop goes on after a frame: to the next one, or to waiting. */
  ghost predicate GoesOn(job: Job, es: seq<Event>)
    requires job.Valid()
  {
    && es != [] && es[|es| - 1] == Poll && After(job, es).Some? && After(job, es[..|es| - 1]).Some?
    && After(job, es[..|es| - 1]).value.snd.stage == Polling && After(job, es).value.snd.stage != Polling
  }

  /** Before the direct send loop goes on to the next chunk, it has resent every chunk whose NACK the
      control loop has read by then, in the order of the NACKs; none is put off. */
  lemma NacksServedFirst(job: Job, es: seq<Event>) returns (nacks: seq<seq<nat>>)
    requires job.Valid() && job.path.Direct? && GoesOn(job, es)
    ensures |nacks| == After(job, es).value.snd.next <= |job.Todo()| && Concat(nacks) == NacksRead(job, es)
    ensures var sent := L.Order(job.Todo()[..|nacks|], nacks, []);
      L.Chunks(job.source, sent) && SentFrames(job, es) == L.Frames(job.source, sent)
    ensures |SentFrames(job, es)| == After(job, es).value.snd.next + |NacksRead(job, es)|
  {
    var front := es[..|es| - 1];
    var s := After(job, front).value;
    C.InvAlways(job, front);
    var late: seq<nat>;
    nacks, late := SendsFollow(job, front);
    assert late == [] && s.snd.queue == [] && s.snd.held == None;
    assert Concat(nacks) + [] + [] + [] == Concat(nacks);
    assert SentFrames(job, es) == SentFrames(job, front) + [] && NacksRead(job, es) == NacksRead(job, front) + [];
    OrderLength(job.Todo()[..s.snd.next], nacks, []);
  }

  /** Every frame of the first pass is followed by a look into the NACK channel. */
  lemma LeavesPolling(job: Job, s: Sys, e: Event)
    requires job.Valid() && job.path.Direct? && Enabled(job, s, e) && Step(job, s, e).snd.stage != Polling
    ensures s.snd.stage == Polling ==> e == Poll
    ensures Step(job, s, e).snd.next == s.snd.next
  {
  }

  /** And it goes on that way after every frame: once the frame is behind it, there was such a moment after
      the frame and before the next. */
  lemma {:induction false} EveryTurnServes(job: Job, es: seq<Event>) returns (turn: seq<Event>)
    requires job.Valid() && job.path.Direct? && After(job, es).Some?
    requires After(job, es).value.snd.stage != Polling && After(job, es).value.snd.next > 0
    ensures turn <= es && GoesOn(job, turn)
    ensures After(job, turn).value.snd.next == After(job, es).value.snd.next
    ensures |SentFrames(job, turn)| == After(job, es).value.snd.next + |NacksRead(job, turn)|
  {
    var front := es[..|es| - 1];
    if After(job, front).value.snd.stage == Polling {
      turn := es;
      LeavesPolling(job, After(job, front).value, es[|es| - 1]);
      var nacks := NacksServedFirst(job, es);
    } else {
      LeavesPolling(job, After(job, front).value, es[|es| - 1]);
      turn := EveryTurnServes(job, front);
    }
  }
}
