/** Who is paired with whom at the relay under a token, in every run in which no look-up of that token
    comes between another one and its registration (p2pshare-relay/src/main.rs:46 and 58) and no handler of
    the token times out. Handlers of other tokens do what they like; hand-overs, pipes and arrivals
    interleave freely. */
module OrderlyPairing {
  import opened Bytes
  import opened Pairing
  import O = PairingOrder

  // ---- Promised streams stay promised ----

  /** Stream `b` is promised to `a`, handed to it, piped with it, or both are done. */
  ghost predicate Paired(s: Server, a: nat, b: nat) {
    && a in s.handlers && b in s.handlers && a != b
    && (|| (At(s, a, Waiting) && s.handlers[a].slot == None && At(s, b, Second(a)))
        || (At(s, a, Waiting) && s.handlers[a].slot == Some(b) && At(s, b, Finished))
        || (At(s, a, Piping(b)) && At(s, b, Finished))
        || (At(s, a, Finished) && At(s, b, Finished) && a in s.closed && b in s.closed))
  }

  /** Nothing but the waiting peer's timeout undoes a promise. */
  lemma PairedKept(s: Server, e: Event, a: nat, b: nat)
    requires SenderInv(s) && Enabled(s, e) && Paired(s, a, b) && e != Timeout(a)
    ensures Paired(Step(s, e), a, b)
  {
  }

  /** A look-up that finds a waiting peer promises the stream to it. */
  lemma FoundIsPaired(s: Server, h: nat)
    requires Inv(s) && At(s, h, Start) && s.handlers[h].token in s.waiting
    requires At(s, s.waiting[s.handlers[h].token], Waiting)
    ensures Paired(DoRemove(s, h), s.waiting[s.handlers[h].token], h)
  {
  }

  /** In every run that goes on from a promise, however handlers interleave, the promise stands or has led
      to the pipe, unless the waiting peer's timeout fires. */
  lemma {:induction false} PromiseStands(es: seq<Event>, more: seq<Event>, a: nat, b: nat)
    requires After(es).Some? && Paired(After(es).value, a, b)
    requires After(es + more).Some? && Timeout(a) !in more
    ensures Paired(After(es + more).value, a, b)
    decreases |more|
  {
    if more == [] {
      assert es + more == es;
    } else {
      var front, e := more[..|more| - 1], more[|more| - 1];
      assert (es + more)[..|es + more| - 1] == es + front;
      PromiseStands(es, front, a, b);
      InvAlways(es + front);
      PairedKept(After(es + front).value, e, a, b);
    }
  }

  /** And the next step towards the pipe can always be taken. */
  lemma PromiseAdvances(s: Server, a: nat, b: nat) returns (e: Event)
    requires Inv(s) && Paired(s, a, b) && At(s, a, Waiting)
    ensures Enabled(s, e) && (e == Send(b) || e == Receive(a))
    ensures e == Send(b) ==> Step(s, e).handlers[a].slot == Some(b)
    ensures e == Receive(a) ==> At(Step(s, e), a, Piping(b))
  {
    e := if s.handlers[a].slot == None then Send(b) else Receive(a);
  }

  // ---- Orderly runs ----

  /** No handler of the same token is between its look-up and its registration. */
  ghost predicate NoneBetween(s: Server, h: nat) {
    h in s.handlers && forall g :: At(s, g, First) ==> s.handlers[g].token != s.handlers[h].token
  }

  ghost predicate OrderlyStep(s: Server, e: Event, t: Token) {
    (e.Timeout? || e.Remove?) && e.h in s.handlers && s.handlers[e.h].token == t ==>
      e.Remove? && NoneBetween(s, e.h)
  }

  /** As far as token `t` is concerned. */
  ghost predicate Orderly(es: seq<Event>, t: Token)
    requires After(es).Some?
  {
    es == [] || (Orderly(es[..|es| - 1], t) && OrderlyStep(After(es[..|es| - 1]).value, es[|es| - 1], t))
  }

  function LookedUp(s: Server, e: Event, t: Token): seq<nat> {
    if e.Remove? && e.h in s.handlers && s.handlers[e.h].token == t then [e.h] else []
  }

  /** The handlers that have looked `t` up, in the order of their look-ups. */
  ghost function Looks(es: seq<Event>, t: Token): seq<nat>
    requires After(es).Some?
  {
    if es == [] then []
    else Looks(es[..|es| - 1], t) + LookedUp(After(es[..|es| - 1]).value, es[|es| - 1], t)
  }

  /** `looks` are the handlers of token `t` that have looked it up, each once. */
  ghost predicate Listed(s: Server, looks: seq<nat>, t: Token) {
    && (forall i :: 0 <= i < |looks| ==>
          looks[i] in s.handlers && s.handlers[looks[i]].token == t && s.handlers[looks[i]].pc != Start)
    && (forall h :: h in s.handlers && s.handlers[h].token == t && s.handlers[h].pc != Start ==> h in looks)
    && (forall i, j :: 0 <= i < j < |looks| ==> looks[i] != looks[j])
  }

  /** About to register, or registered and waiting for the next look-up. */
  ghost predicate Next(s: Server, h: nat, t: Token) {
    || (At(s, h, First) && t !in s.waiting)
    || (At(s, h, Waiting) && s.handlers[h].slot == None && t in s.waiting && s.waiting[t] == h)
  }

  ghost predicate InPairs(s: Server, looks: seq<nat>) {
    forall i :: 0 <= i < |looks| - 1 && i % 2 == 0 ==> Paired(s, looks[i], looks[i + 1])
  }

  /** The look-ups of `t` number 2k and 2k+1 are a pair; one that is left over is next. */
  ghost predicate TokenInv(s: Server, looks: seq<nat>, t: Token) {
    && Listed(s, looks, t) && InPairs(s, looks)
    && (if |looks| % 2 == 1 then Next(s, looks[|looks| - 1], t) else t !in s.waiting)
  }

  /** Every handler that has looked up `t` is in a pair, or next. */
  lemma Placed(s: Server, looks: seq<nat>, t: Token, h: nat) returns (i: nat)
    requires TokenInv(s, looks, t) && h in s.handlers && s.handlers[h].token == t && s.handlers[h].pc != Start
    ensures i < |looks| && looks[i] == h
    ensures i % 2 == 1 ==> Paired(s, looks[i - 1], h)
    ensures i % 2 == 0 && i + 1 < |looks| ==> Paired(s, h, looks[i + 1])
    ensures i % 2 == 0 && i + 1 == |looks| ==> Next(s, h, t)
  {
    i :| 0 <= i < |looks| && looks[i] == h;
    if i % 2 == 1 {
      assert Paired(s, looks[i - 1], looks[i - 1 + 1]);
    }
  }

  /** No handler of the token is turned away. */
  lemma NotTurnedAway(s: Server, looks: seq<nat>, t: Token, h: nat)
    requires Inv(s) && TokenInv(s, looks, t) && h in s.handlers && s.handlers[h].token == t
    ensures s.handlers[h].pc != Cleanup && !Enabled(s, Dropped(h))
  {
    if s.handlers[h].pc != Start {
      var i := Placed(s, looks, t, h);
      if At(s, h, Waiting) && s.handlers[h].slot == None {
        if i + 1 == |looks| {
          assert s.waiting[t] in s.waiting.Values;
        } else {
          assert Holding(s, looks[i + 1]);
        }
      }
    }
  }

  // ---- Every event keeps the pairs of every token ----

  /** Nothing about the handlers and the entry of token `t` changes. */
  ghost predicate SameFor(s: Server, s': Server, t: Token) {
    && (forall h :: h in s.handlers && s.handlers[h].token == t ==> h in s'.handlers && s'.handlers[h] == s.handlers[h])
    && (forall h :: h in s'.handlers && s'.handlers[h].token == t && h !in s.handlers ==> s'.handlers[h].pc == Start)
    && (forall h :: h in s'.handlers && s'.handlers[h].token == t && h in s.handlers ==> s.handlers[h].token == t)
    && (t in s'.waiting <==> t in s.waiting) && (t in s.waiting ==> s'.waiting[t] == s.waiting[t])
    && s.closed <= s'.closed
  }

  lemma SameForKept(s: Server, s': Server, looks: seq<nat>, t: Token)
    requires TokenInv(s, looks, t) && SameFor(s, s', t)
    ensures TokenInv(s', looks, t)
  {
    forall i | 0 <= i < |looks| - 1 && i % 2 == 0
      ensures Paired(s', looks[i], looks[i + 1])
    {
      assert Paired(s, looks[i], looks[i + 1]);
    }
  }

  /** A step of another token's handler, or an arrival. */
  lemma OtherTokenSame(s: Server, e: Event, t: Token)
    requires EntriesInv(s) && HoldersInv(s) && Enabled(s, e) && (e.Arrive? || s.handlers[e.h].token != t)
    ensures SameFor(s, Step(s, e), t)
  {
  }

  lemma PairsKept(s: Server, e: Event, looks: seq<nat>)
    requires Inv(s) && Enabled(s, e) && !e.Timeout? && InPairs(s, looks)
    ensures InPairs(Step(s, e), looks)
  {
    forall i | 0 <= i < |looks| - 1 && i % 2 == 0
      ensures Paired(Step(s, e), looks[i], looks[i + 1])
    {
      PairedKept(s, e, looks[i], looks[i + 1]);
    }
  }

  /** No step un-looks or lists anyone, but a look-up. */
  lemma ListedKept(s: Server, e: Event, looks: seq<nat>, t: Token)
    requires Enabled(s, e) && !e.Remove? && !e.Arrive? && Listed(s, looks, t)
    ensures Listed(Step(s, e), looks, t)
  {
    assert Step(s, e).handlers.Keys == s.handlers.Keys;
  }

  /** A look-up of `t`: it finds the one that is next, or is next itself. */
  lemma RemoveKept(s: Server, h: nat, looks: seq<nat>, t: Token)
    requires Inv(s) && Enabled(s, Remove(h)) && NoneBetween(s, h) && s.handlers[h].token == t && TokenInv(s, looks, t)
    ensures TokenInv(DoRemove(s, h), looks + [h], t)
  {
    var s' := DoRemove(s, h);
    PairsKept(s, Remove(h), looks);
    forall i | 0 <= i < |looks + [h]| - 1 && i % 2 == 0
      ensures Paired(s', (looks + [h])[i], (looks + [h])[i + 1])
    {
      if i + 1 == |looks| {
        FoundIsPaired(s, h);
      } else {
        assert Paired(s', looks[i], looks[i + 1]);
      }
    }
  }

  lemma InsertKept(s: Server, h: nat, looks: seq<nat>, t: Token)
    requires Inv(s) && Enabled(s, Insert(h)) && s.handlers[h].token == t && TokenInv(s, looks, t)
    ensures TokenInv(DoInsert(s, h), looks, t)
  {
    var i := Placed(s, looks, t, h);
    PairsKept(s, Insert(h), looks);
    ListedKept(s, Insert(h), looks, t);
  }

  /** The other steps of a handler of `t` leave the one that is next alone. */
  lemma NextKept(s: Server, e: Event, h: nat, looks: seq<nat>, t: Token)
    requires Inv(s) && Enabled(s, e) && !e.Arrive? && !e.Remove? && !e.Insert? && !e.Timeout?
    requires s.handlers[e.h].token == t && TokenInv(s, looks, t) && Next(s, h, t)
    ensures Next(Step(s, e), h, t)
  {
    NotTurnedAway(s, looks, t, e.h);
    if e.Send? {
      assert Holding(s, e.h);
      assert s.handlers[e.h].pc.to != h;
    }
  }

  lemma OtherKept(s: Server, e: Event, looks: seq<nat>, t: Token)
    requires Inv(s) && Enabled(s, e) && !e.Arrive? && !e.Remove? && !e.Insert? && !e.Timeout?
    requires s.handlers[e.h].token == t && TokenInv(s, looks, t)
    ensures TokenInv(Step(s, e), looks, t)
  {
    NotTurnedAway(s, looks, t, e.h);
    PairsKept(s, e, looks);
    ListedKept(s, e, looks, t);
    if |looks| % 2 == 1 {
      NextKept(s, e, looks[|looks| - 1], looks, t);
    }
  }

  lemma TokenKept(s: Server, e: Event, looks: seq<nat>, t: Token)
    requires Inv(s) && Enabled(s, e) && OrderlyStep(s, e, t) && TokenInv(s, looks, t)
    ensures TokenInv(Step(s, e), looks + LookedUp(s, e, t), t)
  {
    assert looks + [] == looks;
    if e.Arrive? || s.handlers[e.h].token != t {
      OtherTokenSame(s, e, t);
      SameForKept(s, Step(s, e), looks, t);
    } else if e.Remove? {
      RemoveKept(s, e.h, looks, t);
    } else if e.Insert? {
      InsertKept(s, e.h, looks, t);
    } else {
      OtherKept(s, e, looks, t);
    }
  }

  /** In every run that is orderly for `t`: the look-ups of `t` number 2k and 2k+1 belong together, from
      the promise to the pipe and its end, and a last one is next. */
  lemma {:induction false} OrderlyRunsPair(es: seq<Event>, t: Token)
    requires After(es).Some? && Orderly(es, t)
    ensures TokenInv(After(es).value, Looks(es, t), t)
  {
    if es != [] {
      var front := es[..|es| - 1];
      OrderlyRunsPair(front, t);
      InvAlways(front);
      TokenKept(After(front).value, es[|es| - 1], Looks(front, t), t);
    }
  }

  /** In particular two streams are only ever piped if they are neighbours in that order. */
  lemma PipesAreNeighbours(es: seq<Event>, a: nat, b: nat) returns (i: nat)
    requires After(es).Some? && At(After(es).value, a, Piping(b)) && Orderly(es, After(es).value.handlers[a].token)
    ensures var looks := Looks(es, After(es).value.handlers[a].token);
      i % 2 == 0 && i + 1 < |looks| && looks[i] == a && looks[i + 1] == b
  {
    var s := After(es).value;
    var t := s.handlers[a].token;
    OrderlyRunsPair(es, t);
    i := Placed(s, Looks(es, t), t, a);
  }

  /** And no one is turned away: no handler cleans up, and no one-shot sender is lost. */
  lemma NoOneTurnedAway(es: seq<Event>, h: nat)
    requires After(es).Some? && h in After(es).value.handlers && Orderly(es, After(es).value.handlers[h].token)
    ensures !At(After(es).value, h, Cleanup) && !Enabled(After(es).value, Dropped(h))
  {
    var t := After(es).value.handlers[h].token;
    InvAlways(es);
    OrderlyRunsPair(es, t);
    NotTurnedAway(After(es).value, Looks(es, t), t, h);
  }

  // ---- One after the other ----

  lemma OrderlyExtend(es: seq<Event>, s: Server, e: Event, t: Token)
    requires After(es) == Some(s) && Orderly(es, t) && Enabled(s, e) && OrderlyStep(s, e, t)
    ensures After(es + [e]) == Some(Step(s, e)) && Orderly(es + [e], t)
  {
    Pairing.Extend(es, s, e);
    assert (es + [e])[..|es + [e]| - 1] == es;
  }

  lemma ServeOrderly(es: seq<Event>, s: Server, h: nat, t: Token, u: Token)
    requires After(es) == Some(s) && Orderly(es, u) && h !in s.handlers && (forall g :: !At(s, g, First))
    requires t in s.waiting ==> At(s, s.waiting[t], Waiting) && s.handlers[s.waiting[t]].slot == None
    ensures After(es + O.ServeEvents(s, h, t)).Some? && Orderly(es + O.ServeEvents(s, h, t), u)
  {
    var s1 := Step(s, Arrive(h, t));
    OrderlyExtend(es, s, Arrive(h, t), u);
    forall g | g in s1.handlers
      ensures !At(s1, g, First)
    {
      assert g != h ==> !At(s, g, First);
    }
    OrderlyExtend(es + [Arrive(h, t)], s1, Remove(h), u);
    var es2, s2 := es + [Arrive(h, t)] + [Remove(h)], DoRemove(s1, h);
    if t in s.waiting {
      var x := s.waiting[t];
      OrderlyExtend(es2, s2, Send(h), u);
      OrderlyExtend(es2 + [Send(h)], DoSend(s2, h), Receive(x), u);
      assert es2 + [Send(h)] + [Receive(x)] == es + O.ServeEvents(s, h, t);
    } else {
      OrderlyExtend(es2, s2, Insert(h), u);
      assert es2 + [Insert(h)] == es + O.ServeEvents(s, h, t);
    }
  }

  /** Arrivals served one after the other make a run that is orderly for every token. */
  lemma {:induction false} ScheduleOrderly(tokens: seq<Token>, n: nat, u: Token)
    requires n <= |tokens|
    ensures After(O.Schedule(tokens, n)) == Some(O.Served(tokens, n)) && Orderly(O.Schedule(tokens, n), u)
  {
    O.ServedIsReached(tokens, n);
    if n > 0 {
      ScheduleOrderly(tokens, n - 1, u);
      O.ServedOrder(tokens, n - 1);
      var s := O.Served(tokens, n - 1);
      forall g | g in s.handlers
        ensures !At(s, g, First)
      {
        assert O.Placed(tokens, n - 1, s, g);
      }
      if tokens[n - 1] in s.waiting {
        assert O.Placed(tokens, n - 1, s, s.waiting[tokens[n - 1]]);
      }
      ServeOrderly(O.Schedule(tokens, n - 1), s, n - 1, tokens[n - 1], u);
    }
  }

  // ---- Runs that are not orderly ----

  /** The two are past their look-ups and neither stream is promised to the other. */
  ghost predicate Apart(s: Server, g: nat, h: nat) {
    && g in s.handlers && h in s.handlers && s.handlers[g].pc != Start && s.handlers[h].pc != Start
    && !O.Promised(s, g, h) && !O.Promised(s, h, g)
  }

  lemma ApartKept(s: Server, e: Event, g: nat, h: nat)
    requires GivenInv(s) && Enabled(s, e) && Apart(s, g, h)
    ensures Apart(Step(s, e), g, h)
  {
    var s' := Step(s, e);
    if O.Promised(s', g, h) {
      O.PromiseSource(s, e, g, h);
    }
    if O.Promised(s', h, g) {
      O.PromiseSource(s, e, h, g);
    }
  }

  /** A look-up between another handler's look-up and its registration keeps the two apart for good,
      whatever happens afterwards. */
  lemma {:induction false} CrossedStayApart(es: seq<Event>, g: nat, h: nat, more: seq<Event>)
    requires After(es).Some? && At(After(es).value, g, First) && Enabled(After(es).value, Remove(h))
    requires After(es).value.handlers[g].token == After(es).value.handlers[h].token
    requires After(es + [Remove(h)] + more).Some?
    ensures Apart(After(es + [Remove(h)] + more).value, g, h)
    decreases |more|
  {
    var now := es + [Remove(h)];
    if more == [] {
      assert now + [] == now;
      Pairing.Extend(es, After(es).value, Remove(h));
      InvAlways(es);
    } else {
      var front := more[..|more| - 1];
      assert (now + more)[..|now + more| - 1] == now + front;
      CrossedStayApart(es, g, h, front);
      InvAlways(now + front);
      ApartKept(After(now + front).value, more[|more| - 1], g, h);
    }
  }
}
