/** The relay's pairing server: p2pshare-relay/src/main.rs. Every connection has a handler; handlers
    share a map from tokens to one-shot senders. Taking the lock to look a token up and taking it
    again to register are separate steps, and so is everything else between two awaits. */
module Pairing {
  import opened Bytes

  type Token = seq<Byte>

  /** Where a handler is. A handler and the stream it was started with share a number; a one-shot
      sender is named after the handler that waits on its receiver. */
  datatype Pc =
    | Start                  // has read its token
    | First                  // found no one waiting, not yet registered
    | Second(to: nat)        // took the one-shot sender of `to`, has not used it yet
    | Waiting                // registered, waiting on its one-shot receiver
    | Cleanup                // gave up, has not removed its map entry yet
    | Piping(peer: nat)      // pipes its stream and the stream of `peer`
    | Finished

  datatype Handler = Handler(token: Token, pc: Pc, slot: Option<nat>)

  /** `closed` are the streams that were dropped. */
  datatype Server = Server(handlers: map<nat, Handler>, waiting: map<Token, nat>, closed: set<nat>)

  datatype Event =
    | Arrive(h: nat, token: Token)
    | Remove(h: nat)
    | Insert(h: nat)
    | Send(h: nat)
    | Receive(h: nat)
    | Timeout(h: nat)
    | Dropped(h: nat)
    | Clean(h: nat)
    | EndPipe(h: nat)

  function SetPc(s: Server, h: nat, pc: Pc): Server
    requires h in s.handlers
  {
    s.(handlers := s.handlers[h := s.handlers[h].(pc := pc)])
  }

  function SetSlot(s: Server, h: nat, slot: Option<nat>): Server
    requires h in s.handlers
  {
    s.(handlers := s.handlers[h := s.handlers[h].(slot := slot)])
  }

  predicate At(s: Server, h: nat, pc: Pc) {
    h in s.handlers && s.handlers[h].pc == pc
  }

  /** The handler is between `remove` and `send`. */
  predicate Holding(s: Server, h: nat) {
    h in s.handlers && s.handlers[h].pc.Second?
  }

  /** Someone holds the one-shot sender of `x`: the map, or a handler between `remove` and `send`. */
  ghost predicate SenderAlive(s: Server, x: nat) {
    x in s.waiting.Values || exists h :: Holding(s, h) && s.handlers[h].pc.to == x
  }

  ghost predicate Enabled(s: Server, e: Event) {
    match e
    case Arrive(h, _) => h !in s.handlers
    case Remove(h) => At(s, h, Start)
    case Insert(h) => At(s, h, First)
    case Send(h) => Holding(s, h) && s.handlers[h].pc.to in s.handlers
    case Receive(h) => At(s, h, Waiting) && s.handlers[h].slot.Some?
    case Timeout(h) => At(s, h, Waiting)
    case Dropped(h) => At(s, h, Waiting) && s.handlers[h].slot.None? && !SenderAlive(s, h)
    case Clean(h) => At(s, h, Cleanup)
    case EndPipe(h) => h in s.handlers && s.handlers[h].pc.Piping?
  }

  /** First lock: look the token up and take its one-shot sender out. */
  function DoRemove(s: Server, h: nat): Server
    requires At(s, h, Start)
  {
    var t := s.handlers[h].token;
    if t in s.waiting then SetPc(s.(waiting := s.waiting - {t}), h, Second(s.waiting[t])) else SetPc(s, h, First)
  }

  /** Second lock: register; an entry already there is overwritten and its one-shot sender dropped. */
  function DoInsert(s: Server, h: nat): Server
    requires At(s, h, First)
  {
    SetPc(s.(waiting := s.waiting[s.handlers[h].token := h]), h, Waiting)
  }

  /** Hand the stream over; if the receiver is gone the stream is dropped. */
  function DoSend(s: Server, h: nat): Server
    requires Enabled(s, Send(h))
  {
    var x := s.handlers[h].pc.to;
    var s' := SetPc(s, h, Finished);
    if At(s, x, Waiting) then SetSlot(s', x, Some(h)) else s'.(closed := s'.closed + {h})
  }

  function DoReceive(s: Server, h: nat): Server
    requires Enabled(s, Receive(h))
  {
    s.(handlers := s.handlers[h := s.handlers[h].(pc := Piping(s.handlers[h].slot.value), slot := None)])
  }

  /** The receiver is dropped, and with it a stream that arrived too late. */
  function DoTimeout(s: Server, h: nat): Server
    requires Enabled(s, Timeout(h))
  {
    var late := s.handlers[h].slot;
    s.(handlers := s.handlers[h := s.handlers[h].(pc := Cleanup, slot := None)],
       closed := s.closed + if late.Some? then {late.value} else {})
  }

  /** Remove the token's entry, whoever made it. */
  function DoClean(s: Server, h: nat): Server
    requires At(s, h, Cleanup)
  {
    SetPc(s, h, Finished).(waiting := s.waiting - {s.handlers[h].token}, closed := s.closed + {h})
  }

  function DoEndPipe(s: Server, h: nat): Server
    requires Enabled(s, EndPipe(h))
  {
    SetPc(s, h, Finished).(closed := s.closed + {h, s.handlers[h].pc.peer})
  }

  function Step(s: Server, e: Event): Server
    requires Enabled(s, e)
  {
    match e
    case Arrive(h, t) => s.(handlers := s.handlers[h := Handler(t, Start, None)])
    case Remove(h) => DoRemove(s, h)
    case Insert(h) => DoInsert(s, h)
    case Send(h) => DoSend(s, h)
    case Receive(h) => DoReceive(s, h)
    case Timeout(h) => DoTimeout(s, h)
    case Dropped(h) => SetPc(s, h, Cleanup)
    case Clean(h) => DoClean(s, h)
    case EndPipe(h) => DoEndPipe(s, h)
  }

  const EMPTY: Server := Server(map[], map[], {})

  ghost function After(es: seq<Event>): Option<Server> {
    if es == [] then Some(EMPTY)
    else
      match After(es[..|es| - 1])
      case None => None
      case Some(s) => if Enabled(s, es[|es| - 1]) then Some(Step(s, es[|es| - 1])) else None
  }

  // ---- Where a stream is ----

  /** The handler it was started with still has it, possibly piping. */
  ghost predicate WithHandler(s: Server, h: nat) {
    h in s.handlers && s.handlers[h].pc != Finished
  }

  /** The stream another handler put into this one's hands: in its one-shot, or in its pipe. */
  function Guest(hd: Handler): Option<nat> {
    if hd.slot.Some? then hd.slot else if hd.pc.Piping? then Some(hd.pc.peer) else None
  }

  ghost predicate GivenTo(s: Server, h: nat, x: nat) {
    x in s.handlers && Guest(s.handlers[x]) == Some(h)
  }

  // ---- Invariants ----

  /** A stream given to a handler came from a finished handler of the same token and is open. */
  ghost predicate GuestsOpen(s: Server) {
    forall x :: x in s.handlers && Guest(s.handlers[x]).Some? ==>
      var h := Guest(s.handlers[x]).value;
      At(s, h, Finished) && h != x && h !in s.closed && s.handlers[h].token == s.handlers[x].token
  }

  /** It was given to one handler only. */
  ghost predicate GuestsApart(s: Server) {
    forall x, y :: x in s.handlers && y in s.handlers && Guest(s.handlers[x]).Some? && x != y ==>
      Guest(s.handlers[x]) != Guest(s.handlers[y])
  }

  ghost predicate GivenInv(s: Server) {
    && GuestsOpen(s)
    && GuestsApart(s)
    && (forall x :: x in s.handlers && s.handlers[x].slot.Some? ==> s.handlers[x].pc == Waiting)
  }

  ghost predicate ClosedInv(s: Server) {
    && (forall h :: h in s.closed ==> At(s, h, Finished))
    && (forall h :: At(s, h, Finished) && h !in s.closed ==> exists x :: GivenTo(s, h, x))
  }

  /** A one-shot sender in the map is there under its handler's token, and nothing was sent on it. */
  ghost predicate EntriesInv(s: Server) {
    forall t :: t in s.waiting ==>
      && (At(s, s.waiting[t], Waiting) || At(s, s.waiting[t], Cleanup))
      && s.handlers[s.waiting[t]].token == t && s.handlers[s.waiting[t]].slot == None
  }

  /** A one-shot sender held by a handler is another one's with the same token, is not in the map, and
      nothing was sent on it. */
  ghost predicate HoldersInv(s: Server) {
    forall h :: Holding(s, h) ==>
      var x := s.handlers[h].pc.to;
      && x in s.handlers && x != h && s.handlers[x].token == s.handlers[h].token
      && (At(s, x, Waiting) || At(s, x, Cleanup) || At(s, x, Finished))
      && s.handlers[x].slot == None
      && (forall t :: t in s.waiting ==> s.waiting[t] != x)
  }

  /** It is held by one handler only. */
  ghost predicate HoldersApart(s: Server) {
    forall h, g :: Holding(s, h) && Holding(s, g) && s.handlers[h].pc.to == s.handlers[g].pc.to ==> h == g
  }

  ghost predicate SenderInv(s: Server) {
    EntriesInv(s) && HoldersInv(s) && HoldersApart(s)
  }

  ghost predicate Inv(s: Server) {
    GivenInv(s) && ClosedInv(s) && SenderInv(s)
  }

  // ---- Every event keeps them ----

  lemma RemoveGiven(s: Server, h: nat)
    requires Inv(s) && Enabled(s, Remove(h))
    ensures GivenInv(DoRemove(s, h))
  {
  }

  lemma RemoveHolders(s: Server, h: nat)
    requires EntriesInv(s) && HoldersInv(s) && Enabled(s, Remove(h))
    ensures HoldersInv(DoRemove(s, h))
  {
  }

  lemma RemoveSender(s: Server, h: nat)
    requires SenderInv(s) && Enabled(s, Remove(h))
    ensures SenderInv(DoRemove(s, h))
  {
    RemoveHolders(s, h);
  }

  lemma InsertGiven(s: Server, h: nat)
    requires Inv(s) && Enabled(s, Insert(h))
    ensures GivenInv(DoInsert(s, h))
  {
  }

  lemma InsertSender(s: Server, h: nat)
    requires Inv(s) && Enabled(s, Insert(h))
    ensures SenderInv(DoInsert(s, h))
  {
  }

  lemma HandOverApart(s: Server, h: nat)
    requires GivenInv(s) && HoldersInv(s) && Enabled(s, Send(h)) && At(s, s.handlers[h].pc.to, Waiting)
    ensures GuestsApart(DoSend(s, h))
  {
  }

  lemma HandOverGiven(s: Server, h: nat)
    requires Inv(s) && Enabled(s, Send(h)) && At(s, s.handlers[h].pc.to, Waiting)
    ensures GivenInv(DoSend(s, h))
  {
    HandOverApart(s, h);
  }

  lemma TooLateGiven(s: Server, h: nat)
    requires Inv(s) && Enabled(s, Send(h)) && !At(s, s.handlers[h].pc.to, Waiting)
    ensures GivenInv(DoSend(s, h))
  {
  }

  lemma SendGiven(s: Server, h: nat)
    requires Inv(s) && Enabled(s, Send(h))
    ensures GivenInv(DoSend(s, h))
  {
    if At(s, s.handlers[h].pc.to, Waiting) {
      HandOverGiven(s, h);
    } else {
      TooLateGiven(s, h);
    }
  }

  lemma SendHolders(s: Server, h: nat)
    requires HoldersInv(s) && HoldersApart(s) && Enabled(s, Send(h))
    ensures HoldersInv(DoSend(s, h)) && HoldersApart(DoSend(s, h))
  {
  }

  lemma SendSender(s: Server, h: nat)
    requires SenderInv(s) && Enabled(s, Send(h))
    ensures SenderInv(DoSend(s, h))
  {
    SendHolders(s, h);
  }

  lemma ReceiveGiven(s: Server, h: nat)
    requires Inv(s) && Enabled(s, Receive(h))
    ensures GivenInv(DoReceive(s, h))
  {
  }

  lemma ReceiveSender(s: Server, h: nat)
    requires Inv(s) && Enabled(s, Receive(h))
    ensures SenderInv(DoReceive(s, h))
  {
  }

  lemma TimeoutGiven(s: Server, h: nat)
    requires Inv(s) && Enabled(s, Timeout(h))
    ensures GivenInv(DoTimeout(s, h))
  {
  }

  lemma TimeoutSender(s: Server, h: nat)
    requires Inv(s) && Enabled(s, Timeout(h))
    ensures SenderInv(DoTimeout(s, h))
  {
  }

  lemma CleanGiven(s: Server, h: nat)
    requires Inv(s) && Enabled(s, Clean(h))
    ensures GivenInv(DoClean(s, h))
  {
  }

  lemma CleanSender(s: Server, h: nat)
    requires Inv(s) && Enabled(s, Clean(h))
    ensures SenderInv(DoClean(s, h))
  {
  }

  lemma EndPipeGiven(s: Server, h: nat)
    requires Inv(s) && Enabled(s, EndPipe(h))
    ensures GivenInv(DoEndPipe(s, h))
  {
  }

  lemma EndPipeSender(s: Server, h: nat)
    requires Inv(s) && Enabled(s, EndPipe(h))
    ensures SenderInv(DoEndPipe(s, h))
  {
  }

  lemma GivenKept(s: Server, e: Event)
    requires Inv(s) && Enabled(s, e)
    ensures GivenInv(Step(s, e))
  {
    match e {
      case Remove(h) => RemoveGiven(s, h);
      case Insert(h) => InsertGiven(s, h);
      case Send(h) => SendGiven(s, h);
      case Receive(h) => ReceiveGiven(s, h);
      case Timeout(h) => TimeoutGiven(s, h);
      case Clean(h) => CleanGiven(s, h);
      case EndPipe(h) => EndPipeGiven(s, h);
      case _ =>
    }
  }

  lemma SenderKept(s: Server, e: Event)
    requires Inv(s) && Enabled(s, e)
    ensures SenderInv(Step(s, e))
  {
    match e {
      case Remove(h) => RemoveSender(s, h);
      case Insert(h) => InsertSender(s, h);
      case Send(h) => SendSender(s, h);
      case Receive(h) => ReceiveSender(s, h);
      case Timeout(h) => TimeoutSender(s, h);
      case Clean(h) => CleanSender(s, h);
      case EndPipe(h) => EndPipeSender(s, h);
      case _ =>
    }
  }

  /** Streams stay where they were given unless the event closes them. */
  lemma ClosedKept(s: Server, e: Event)
    requires Inv(s) && Enabled(s, e)
    ensures ClosedInv(Step(s, e))
  {
    var s' := Step(s, e);
    forall h | At(s', h, Finished) && h !in s'.closed
      ensures exists x :: GivenTo(s', h, x)
    {
      if At(s, h, Finished) {
        var x :| GivenTo(s, h, x);
        assert GivenTo(s', h, x);
      } else {
        assert GivenTo(s', h, s.handlers[h].pc.to);
      }
    }
  }

  lemma {:induction false} InvAlways(es: seq<Event>)
    requires After(es).Some?
    ensures Inv(After(es).value)
  {
    if es != [] {
      var front := es[..|es| - 1];
      InvAlways(front);
      GivenKept(After(front).value, es[|es| - 1]);
      ClosedKept(After(front).value, es[|es| - 1]);
      SenderKept(After(front).value, es[|es| - 1]);
    }
  }

  // ---- Safety, whatever the interleaving, the timeouts and the clean-ups ----

  /** Every pipe joins two different open streams that presented the same token, and no stream is in
      two pipes. */
  lemma PipesAreSound(es: seq<Event>, x: nat, h: nat, y: nat, g: nat)
    requires After(es).Some? && At(After(es).value, x, Piping(h)) && At(After(es).value, y, Piping(g))
    ensures var s := After(es).value;
      && h != x && h in s.handlers && s.handlers[h].token == s.handlers[x].token
      && x !in s.closed && h !in s.closed
      && h != y && (x != y ==> h != g)
  {
    InvAlways(es);
    var s := After(es).value;
    assert Guest(s.handlers[x]) == Some(h) && Guest(s.handlers[y]) == Some(g);
  }

  /** Every stream is in exactly one place: with its own handler, given to one other handler, or closed. */
  lemma ExactlyOnePlace(es: seq<Event>, h: nat)
    requires After(es).Some? && h in After(es).value.handlers
    ensures var s := After(es).value;
      && (WithHandler(s, h) || h in s.closed || exists x :: GivenTo(s, h, x))
      && !(WithHandler(s, h) && h in s.closed)
      && (forall x :: GivenTo(s, h, x) ==> !WithHandler(s, h) && h !in s.closed)
      && (forall x, y :: GivenTo(s, h, x) && GivenTo(s, h, y) ==> x == y)
  {
    InvAlways(es);
  }

  /** No entry of the wait map refers to a handler that is done, or already has its peer; and the
      handler waits under that token. */
  lemma EntriesAreLive(es: seq<Event>, t: Token)
    requires After(es).Some? && t in After(es).value.waiting
    ensures var s := After(es).value;
      && s.waiting[t] in s.handlers
      && s.handlers[s.waiting[t]].token == t
      && (s.handlers[s.waiting[t]].pc == Waiting || s.handlers[s.waiting[t]].pc == Cleanup)
      && s.handlers[s.waiting[t]].slot == None
  {
    InvAlways(es);
  }

  lemma Extend(es: seq<Event>, s: Server, e: Event)
    requires After(es) == Some(s) && Enabled(s, e)
    ensures After(es + [e]) == Some(Step(s, e))
  {
    assert (es + [e])[..|es + [e]| - 1] == es;
  }

  // ---- No handler gets stuck ----

  /** In every run every handler that is not finished can take its next step, whatever the others do: one that
      waits may give up at any time, wakes up with its peer's stream as soon as that is there, and learns that no
      one will come exactly if neither the map nor another handler has its one-shot sender. */
  lemma HandlersGoOn(es: seq<Event>, h: nat)
    requires After(es).Some? && h in After(es).value.handlers
    ensures var s := After(es).value;
      match s.handlers[h].pc
      case Start => Enabled(s, Remove(h))
      case First => Enabled(s, Insert(h))
      case Second(_) => Enabled(s, Send(h))
      case Waiting =>
        && Enabled(s, Timeout(h)) && (s.handlers[h].slot != None ==> Enabled(s, Receive(h)))
        && (Enabled(s, Dropped(h)) <==>
              s.handlers[h].slot == None && (forall t :: t in s.waiting ==> s.waiting[t] != h)
              && (forall g :: !At(s, g, Second(h))))
      case Cleanup => Enabled(s, Clean(h))
      case Piping(_) => Enabled(s, EndPipe(h))
      case Finished => true
  {
    InvAlways(es);
    var s := After(es).value;
    assert forall g :: Holding(s, g) && s.handlers[g].pc.to == h <==> At(s, g, Second(h));
  }

  /** How many events of the run are handler `h`'s. */
  function Steps(es: seq<Event>, h: nat): nat {
    if es == [] then 0 else Steps(es[..|es| - 1], h) + if es[|es| - 1].h == h then 1 else 0
  }

  function StepsLeft(pc: Pc): nat {
    match pc
    case Start => 4
    case First => 3
    case Waiting => 2
    case Second(_) | Cleanup | Piping(_) => 1
    case Finished => 0
  }

  /** And no handler takes more than five steps, so that in the end all of them are finished. */
  lemma {:induction false} HandlersEnd(es: seq<Event>, h: nat)
    requires After(es).Some?
    ensures var s := After(es).value;
      if h in s.handlers then Steps(es, h) + StepsLeft(s.handlers[h].pc) <= 5 else Steps(es, h) == 0
  {
    if es != [] {
      HandlersEnd(es[..|es| - 1], h);
    }
  }

  // ---- The handlers' steps on the shared state ----

  /** What the handlers share, and each handler's progress. Every method is what one handler does
      while no other can interfere. */
  class Relay {
    var handlers: map<nat, Handler>
    var waiting: map<Token, nat>
    var closed: set<nat>

    function View(): Server
      reads this
    {
      Server(handlers, waiting, closed)
    }

    constructor ()
      ensures View() == EMPTY
    {
      handlers, waiting, closed := map[], map[], {};
    }

    method TokenRead(h: nat, token: Token)
      requires Enabled(View(), Arrive(h, token))
      modifies this
      ensures View() == Step(old(View()), Arrive(h, token))
    {
      handlers := handlers[h := Handler(token, Start, None)];
    }

    /** `waiting.lock().await.remove(&token)` and the match on what it gave. */
    method LookUp(h: nat)
      requires Enabled(View(), Remove(h))
      modifies this
      ensures View() == Step(old(View()), Remove(h))
    {
      var me := handlers[h];
      if me.token in waiting {
        handlers := handlers[h := me.(pc := Second(waiting[me.token]))];
        waiting := waiting - {me.token};
      } else {
        handlers := handlers[h := me.(pc := First)];
      }
    }

    /** `waiting.lock().await.insert(token, tx)`. */
    method Register(h: nat)
      requires Enabled(View(), Insert(h))
      modifies this
      ensures View() == Step(old(View()), Insert(h))
    {
      var me := handlers[h];
      waiting := waiting[me.token := h];
      handlers := handlers[h := me.(pc := Waiting)];
    }

    /** `let _ = tx.send(stream)`. */
    method HandOver(h: nat)
      requires Enabled(View(), Send(h))
      modifies this
      ensures View() == Step(old(View()), Send(h))
    {
      var x := handlers[h].pc.to;
      var delivered := At(View(), x, Waiting);
      handlers := handlers[h := handlers[h].(pc := Finished)];
      if delivered {
        handlers := handlers[x := handlers[x].(slot := Some(h))];
      } else {
        closed := closed + {h};
      }
    }

    /** The receiver yields the peer's stream: the pipe starts. */
    method StartPipe(h: nat)
      requires Enabled(View(), Receive(h))
      modifies this
      ensures View() == Step(old(View()), Receive(h))
    {
      var me := handlers[h];
      handlers := handlers[h := me.(pc := Piping(me.slot.value), slot := None)];
    }

    /** The timeout fires: the receiver is dropped with whatever is in it. */
    method GiveUp(h: nat)
      requires Enabled(View(), Timeout(h))
      modifies this
      ensures View() == Step(old(View()), Timeout(h))
    {
      var me := handlers[h];
      if me.slot.Some? {
        closed := closed + {me.slot.value};
      }
      handlers := handlers[h := me.(pc := Cleanup, slot := None)];
    }

    /** `waiting.lock().await.remove(&token)` on the way out. */
    method CleanUp(h: nat)
      requires Enabled(View(), Clean(h))
      modifies this
      ensures View() == Step(old(View()), Clean(h))
    {
      var me := handlers[h];
      waiting := waiting - {me.token};
      handlers := handlers[h := me.(pc := Finished)];
      closed := closed + {h};
    }
  }
}
