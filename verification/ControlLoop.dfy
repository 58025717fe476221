/** The control loop of the direct sender, p2pshare-core/src/transfer/sender.rs:106-125, on the messages
    the transition system's receiver sends. */
module ControlLoop {
  import opened Bytes
  import opened Wire
  import opened Streaming
  import opened Receiver
  import P = Protocol
  import Delivery

  /** What the machine's control loop makes of the messages `cs`, up to the first Complete. */
  function Heard(totalSize: nat, snd: P.Sender, cs: seq<Ctrl>): P.Sender
    decreases |cs|
  {
    if snd.finished || cs == [] then snd else Heard(totalSize, P.OnCtrl(Direct, totalSize, snd, cs[0]), cs[1..])
  }

  /** The messages before the first Complete. */
  function BeforeComplete(cs: seq<Ctrl>): seq<Ctrl> {
    if cs == [] || cs[0].Complete? then [] else [cs[0]] + BeforeComplete(cs[1..])
  }

  /** The chunks asked for again, in order. */
  function Wanted(cs: seq<Ctrl>): seq<nat> {
    if cs == [] then [] else (if cs[0].ChunkNack? then [cs[0].index] else []) + Wanted(cs[1..])
  }

  /** Every NACK before the first Complete is passed on, in order, and nothing after it; the progress shown is
      that of the last Progress message, or the file size once Complete has been read, which is when the loop
      returns. */
  lemma {:induction false} HeardExactly(totalSize: nat, snd: P.Sender, cs: seq<Ctrl>)
    requires !snd.finished
    ensures Heard(totalSize, snd, cs)
         == snd.(queue := snd.queue + Wanted(BeforeComplete(cs)), finished := Complete in cs,
                 bar := if Complete in cs then totalSize else Delivery.LastBar(cs, snd.bar))
    decreases |cs|
  {
    if cs == [] {
      assert snd.queue + [] == snd.queue;
    } else {
      var next := P.OnCtrl(Direct, totalSize, snd, cs[0]);
      assert Complete in cs <==> cs[0] == Complete || Complete in cs[1..];
      if cs[0].Complete? {
        assert snd.queue + [] == snd.queue;
      } else {
        HeardExactly(totalSize, next, cs[1..]);
        var rest := BeforeComplete(cs[1..]);
        assert ([cs[0]] + rest)[1..] == rest;
        if cs[0].ChunkNack? {
          Assoc(snd.queue, [cs[0].index], Wanted(rest));
        } else {
          assert [] + Wanted(rest) == Wanted(rest);
        }
      }
    }
  }

  /** `queue` is the NACK channel as the control loop sees it: it only adds to its end. */
  class DirectControl {
    const totalSize: nat
    var queue: seq<nat>
    var finished: bool

    /** The sender's progress starts with the chunks it skips. */
    constructor (totalSize: nat, initialDone: nat, progress: Counter)
      modifies progress
      ensures this.totalSize == totalSize && queue == [] && !finished
      ensures progress.done == initialDone && progress.total == totalSize
    {
      progress.Reset(totalSize);
      if initialDone > 0 {
        progress.Advance(initialDone);
      }
      this.totalSize, queue, finished := totalSize, [], false;
    }

    /** The sender of the machine with this loop's part replaced by the loop's own. */
    ghost function View(snd: P.Sender, progress: Counter): P.Sender
      reads this, progress
    {
      snd.(queue := queue, finished := finished, bar := progress.done)
    }

    method Handle(c: Ctrl, progress: Counter, ghost snd: P.Sender)
      modifies this, progress`done
      ensures View(snd, progress) == P.OnCtrl(Direct, totalSize, old(View(snd, progress)), c)
    {
      match c {
        case Progress(bytes) => progress.SetDone(bytes);
        case ChunkNack(index) => queue := queue + [index];
        case Complete =>
          progress.SetDone(totalSize);
          finished := true;
      }
    }

    /** Read messages until Complete, or until there are no more: the progress shown, the NACKs passed on
        and whether the loop has returned are the machine's. */
    method Run(cs: seq<Ctrl>, progress: Counter, ghost snd: P.Sender)
      modifies this, progress`done
      ensures View(snd, progress) == Heard(totalSize, old(View(snd, progress)), cs)
    {
      var k := 0;
      while k < |cs| && !finished
        invariant k <= |cs|
        invariant Heard(totalSize, View(snd, progress), cs[k..]) == Heard(totalSize, old(View(snd, progress)), cs)
      {
        assert cs[k..][0] == cs[k] && cs[k..][1..] == cs[k + 1..];
        Handle(cs[k], progress, snd);
        k := k + 1;
      }
    }
  }
}
