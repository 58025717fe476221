/** Who is paired with whom at the relay (p2pshare-relay/src/main.rs:45-82): in the order of arrival
    when handlers do not interleave, and possibly no one when they do. */
module PairingOrder {
  import opened Bytes
  import opened Pairing

  // ---- Arrivals served one after the other, without timeouts ----

  /** What a handler does if nothing comes between its look-up and its registration, or between the
      hand-over and the waiting handler's waking up. */
  function ServeEvents(s: Server, h: nat, t: Token): seq<Event> {
    if t in s.waiting then [Arrive(h, t), Remove(h), Send(h), Receive(s.waiting[t])]
    else [Arrive(h, t), Remove(h), Insert(h)]
  }

  /** The handler that waits for `t` pipes with the newcomer, or the newcomer waits. */
  function Serve(s: Server, h: nat, t: Token): Server {
    if t in s.waiting && s.waiting[t] in s.handlers then
      var x := s.waiting[t];
      s.(handlers := s.handlers[h := Handler(t, Finished, None)][x := s.handlers[x].(pc := Piping(h))],
         waiting := s.waiting - {t})
    else s.(handlers := s.handlers[h := Handler(t, Waiting, None)], waiting := s.waiting[t := h])
  }

  function Served(tokens: seq<Token>, n: nat): Server
    requires n <= |tokens|
  {
    if n == 0 then EMPTY else Serve(Served(tokens, n - 1), n - 1, tokens[n - 1])
  }

  function Schedule(tokens: seq<Token>, n: nat): seq<Event>
    requires n <= |tokens|
  {
    if n == 0 then []
    else Schedule(tokens, n - 1) + ServeEvents(Served(tokens, n - 1), n - 1, tokens[n - 1])
  }

  // ---- Ranks ----

  /** How many of the first `n` arrivals presented `t`. */
  function Count(tokens: seq<Token>, t: Token, n: nat): nat
    requires n <= |tokens|
  {
    if n == 0 then 0 else Count(tokens, t, n - 1) + if tokens[n - 1] == t then 1 else 0
  }

  /** The number of earlier arrivals with the same token: 0 for the first, 1 for the second, ... */
  function Rank(tokens: seq<Token>, i: nat): nat
    requires i < |tokens|
  {
    Count(tokens, tokens[i], i)
  }

  lemma {:induction false} CountGrows(tokens: seq<Token>, t: Token, i: nat, j: nat)
    requires i <= j <= |tokens|
    ensures Count(tokens, t, i) <= Count(tokens, t, j)
    decreases j - i
  {
    if i < j {
      CountGrows(tokens, t, i, j - 1);
    }
  }

  lemma RankInjective(tokens: seq<Token>, i: nat, j: nat)
    requires i < |tokens| && j < |tokens| && tokens[i] == tokens[j] && Rank(tokens, i) == Rank(tokens, j)
    ensures i == j
  {
    if i < j { CountGrows(tokens, tokens[i], i + 1, j); }
    if j < i { CountGrows(tokens, tokens[i], j + 1, i); }
  }

  // ---- The state after n arrivals ----

  /** How handler `i` stands after `n` arrivals. */
  ghost predicate Placed(tokens: seq<Token>, n: nat, s: Server, i: nat)
    requires i < n <= |tokens|
  {
    && i in s.handlers && s.handlers[i].token == tokens[i] && s.handlers[i].slot == None
    && match s.handlers[i].pc
       case Waiting =>
         Rank(tokens, i) % 2 == 0 && Rank(tokens, i) + 1 == Count(tokens, tokens[i], n)
         && tokens[i] in s.waiting && s.waiting[tokens[i]] == i
       case Piping(b) =>
         Rank(tokens, i) % 2 == 0 && i < b < n && tokens[b] == tokens[i] && Rank(tokens, b) == Rank(tokens, i) + 1
       case Finished => Rank(tokens, i) % 2 == 1
       case _ => false
  }

  ghost predicate OrderInv(tokens: seq<Token>, n: nat, s: Server)
    requires n <= |tokens|
  {
    && (forall i :: i in s.handlers ==> i < n)
    && (forall i: nat :: i < n ==> Placed(tokens, n, s, i))
    && (forall t :: t in s.waiting ==> s.waiting[t] < n && tokens[s.waiting[t]] == t && At(s, s.waiting[t], Waiting))
    && (forall t :: t !in s.waiting ==> Count(tokens, t, n) % 2 == 0)
  }

  lemma ServeOrder(tokens: seq<Token>, n: nat, s: Server)
    requires n < |tokens| && OrderInv(tokens, n, s)
    ensures OrderInv(tokens, n + 1, Serve(s, n, tokens[n]))
  {
    var t := tokens[n];
    var s' := Serve(s, n, t);
    if t in s.waiting {
      assert Placed(tokens, n, s, s.waiting[t]);
    }
    var m := n + 1;
    forall i: nat | i < m
      ensures Placed(tokens, m, s', i)
    {
      if i < n {
        assert Placed(tokens, n, s, i);
      }
    }
  }

  lemma {:induction false} ServedOrder(tokens: seq<Token>, n: nat)
    requires n <= |tokens|
    ensures OrderInv(tokens, n, Served(tokens, n))
  {
    if n == 0 {
      assert Served(tokens, 0) == EMPTY;
    } else {
      var before := Served(tokens, n - 1);
      ServedOrder(tokens, n - 1);
      ServeOrder(tokens, n - 1, before);
      assert Served(tokens, n) == Serve(before, n - 1, tokens[n - 1]);
    }
  }

  lemma SecondRuns(es: seq<Event>, s: Server, h: nat, t: Token)
    requires After(es) == Some(s) && h !in s.handlers && t in s.waiting
    requires At(s, s.waiting[t], Waiting) && s.handlers[s.waiting[t]].slot == None
    ensures After(es + ServeEvents(s, h, t)) == Some(Serve(s, h, t))
  {
    var x := s.waiting[t];
    var s1 := Step(s, Arrive(h, t));
    var s2 := DoRemove(s1, h);
    Pairing.Extend(es, s, Arrive(h, t));
    Pairing.Extend(es + [Arrive(h, t)], s1, Remove(h));
    var es2 := es + [Arrive(h, t)] + [Remove(h)];
    Pairing.Extend(es2, s2, Send(h));
    Pairing.Extend(es2 + [Send(h)], DoSend(s2, h), Receive(x));
    assert DoReceive(DoSend(s2, h), x) == Serve(s, h, t);
    assert es2 + [Send(h)] + [Receive(x)] == es + ServeEvents(s, h, t);
  }

  lemma FirstRuns(es: seq<Event>, s: Server, h: nat, t: Token)
    requires After(es) == Some(s) && h !in s.handlers && t !in s.waiting
    ensures After(es + ServeEvents(s, h, t)) == Some(Serve(s, h, t))
  {
    var s1 := Step(s, Arrive(h, t));
    var s2 := DoRemove(s1, h);
    Pairing.Extend(es, s, Arrive(h, t));
    Pairing.Extend(es + [Arrive(h, t)], s1, Remove(h));
    var es2 := es + [Arrive(h, t)] + [Remove(h)];
    Pairing.Extend(es2, s2, Insert(h));
    assert DoInsert(s2, h) == Serve(s, h, t);
    assert es2 + [Insert(h)] == es + ServeEvents(s, h, t);
  }

  /** Serving one arrival is a run of the pairing server. */
  lemma ServeRuns(es: seq<Event>, s: Server, h: nat, t: Token)
    requires After(es) == Some(s) && h !in s.handlers
    requires t in s.waiting ==> At(s, s.waiting[t], Waiting) && s.handlers[s.waiting[t]].slot == None
    ensures After(es + ServeEvents(s, h, t)) == Some(Serve(s, h, t))
  {
    if t in s.waiting {
      SecondRuns(es, s, h, t);
    } else {
      FirstRuns(es, s, h, t);
    }
  }

  lemma {:induction false} ServedIsReached(tokens: seq<Token>, n: nat)
    requires n <= |tokens|
    ensures After(Schedule(tokens, n)) == Some(Served(tokens, n))
  {
    if n > 0 {
      ServedIsReached(tokens, n - 1);
      ServedOrder(tokens, n - 1);
      var s := Served(tokens, n - 1);
      if tokens[n - 1] in s.waiting {
        assert Placed(tokens, n - 1, s, s.waiting[tokens[n - 1]]);
      }
      ServeRuns(Schedule(tokens, n - 1), s, n - 1, tokens[n - 1]);
      assert Schedule(tokens, n) == Schedule(tokens, n - 1) + ServeEvents(s, n - 1, tokens[n - 1]);
    }
  }

  lemma PipesByRank(tokens: seq<Token>, s: Server, a: nat, b: nat)
    requires a < |tokens| && b < |tokens| && OrderInv(tokens, |tokens|, s)
    ensures At(s, a, Piping(b))
       <==> tokens[a] == tokens[b] && Rank(tokens, a) % 2 == 0 && Rank(tokens, b) == Rank(tokens, a) + 1
  {
    assert Placed(tokens, |tokens|, s, a);
    if tokens[a] == tokens[b] && Rank(tokens, a) % 2 == 0 && Rank(tokens, b) == Rank(tokens, a) + 1 {
      CountGrows(tokens, tokens[a], b + 1, |tokens|);
      if s.handlers[a].pc.Piping? {
        RankInjective(tokens, s.handlers[a].pc.peer, b);
      }
    }
  }

  /** Without interleaving and timeouts, for any mix of tokens: the arrivals number 2k and 2k+1 of
      each token are piped to each other, and no one else. */
  lemma PairedInOrder(tokens: seq<Token>, a: nat, b: nat)
    requires a < |tokens| && b < |tokens|
    ensures After(Schedule(tokens, |tokens|)) == Some(Served(tokens, |tokens|))
    ensures At(Served(tokens, |tokens|), a, Piping(b))
       <==> tokens[a] == tokens[b] && Rank(tokens, a) % 2 == 0 && Rank(tokens, b) == Rank(tokens, a) + 1
  {
    ServedIsReached(tokens, |tokens|);
    ServedOrder(tokens, |tokens|);
    PipesByRank(tokens, Served(tokens, |tokens|), a, b);
  }

  // ---- Interleaved arrivals ----

  /** Both peers look the token up before either has registered. */
  function Crossing(t: Token): seq<Event> {
    [Arrive(0, t), Arrive(1, t), Remove(0), Remove(1), Insert(0), Insert(1)]
  }

  /** The second registration drops the first peer's one-shot sender; the first peer gives up and, in
      cleaning up, removes the second peer's entry. */
  function GivingUp(): seq<Event> {
    [Dropped(0), Clean(0), Dropped(1), Clean(1)]
  }

  /** After the crossing both peers wait, but only the second is in the map. */
  lemma Crossed(t: Token) returns (s: Server)
    ensures After(Crossing(t)) == Some(s)
    ensures s.waiting == map[t := 1] && s.closed == {} && s.handlers.Keys == {0, 1}
    ensures s.handlers[0] == Handler(t, Waiting, None) && s.handlers[1] == Handler(t, Waiting, None)
  {
    var es: seq<Event> := [];
    s := EMPTY;
    Pairing.Extend(es, s, Arrive(0, t));
    es, s := es + [Arrive(0, t)], Step(s, Arrive(0, t));
    Pairing.Extend(es, s, Arrive(1, t));
    es, s := es + [Arrive(1, t)], Step(s, Arrive(1, t));
    Pairing.Extend(es, s, Remove(0));
    es, s := es + [Remove(0)], Step(s, Remove(0));
    Pairing.Extend(es, s, Remove(1));
    es, s := es + [Remove(1)], Step(s, Remove(1));
    Pairing.Extend(es, s, Insert(0));
    es, s := es + [Insert(0)], Step(s, Insert(0));
    Pairing.Extend(es, s, Insert(1));
    es, s := es + [Insert(1)], Step(s, Insert(1));
    assert es == Crossing(t);
  }

  /** Two peers with the same token, no timeout and no third party: after this interleaving both are
      turned away unpaired. */
  lemma CrossingPeersAreNotPaired(t: Token)
    ensures After(Crossing(t) + GivingUp()).Some?
    ensures var s := After(Crossing(t) + GivingUp()).value;
      s.closed == {0, 1} && s.waiting == map[] && At(s, 0, Finished) && At(s, 1, Finished)
  {
    var s := Crossed(t);
    var es := Crossing(t);
    Pairing.Extend(es, s, Dropped(0));
    es, s := es + [Dropped(0)], Step(s, Dropped(0));
    Pairing.Extend(es, s, Clean(0));
    es, s := es + [Clean(0)], Step(s, Clean(0));
    assert s.waiting == map[];
    Pairing.Extend(es, s, Dropped(1));
    es, s := es + [Dropped(1)], Step(s, Dropped(1));
    Pairing.Extend(es, s, Clean(1));
    es, s := es + [Clean(1)], Step(s, Clean(1));
    assert es == Crossing(t) + GivingUp();
  }

  // ---- What pairing takes, in any run ----

  /** In the run `es`, the look-up of handler `h` found the registration of `x`. */
  ghost predicate Found(es: seq<Event>, h: nat, x: nat) {
    exists k: nat :: FoundAt(es, k, h, x)
  }

  ghost predicate FoundAt(es: seq<Event>, k: nat, h: nat, x: nat) {
    && k < |es| && es[k] == Remove(h) && After(es[..k]).Some?
    && var s := After(es[..k]).value;
       h in s.handlers && s.handlers[h].token in s.waiting && s.waiting[s.handlers[h].token] == x
  }

  lemma FoundLater(es: seq<Event>, e: Event, h: nat, x: nat)
    requires Found(es, h, x)
    ensures Found(es + [e], h, x)
  {
    var k: nat :| FoundAt(es, k, h, x);
    assert (es + [e])[..k] == es[..k];
    assert FoundAt(es + [e], k, h, x);
  }

  /** Stream `h` is on its way to handler `x`, or with it. */
  ghost predicate Promised(s: Server, h: nat, x: nat) {
    GivenTo(s, h, x) || At(s, h, Second(x))
  }

  /** Only a look-up promises a stream to a waiting handler. */
  lemma PromiseSource(s: Server, e: Event, h: nat, x: nat)
    requires GivenInv(s) && Enabled(s, e) && Promised(Step(s, e), h, x) && !Promised(s, h, x)
    ensures e == Remove(h) && h in s.handlers && s.handlers[h].token in s.waiting && s.waiting[s.handlers[h].token] == x
  {
  }

  /** Whatever the interleaving: a stream is handed to a waiting peer only if its look-up found that
      peer's registration. Peers that both look before either registers are never paired. */
  lemma {:induction false} PairedOnlyIfFound(es: seq<Event>, h: nat, x: nat)
    requires After(es).Some? && Promised(After(es).value, h, x)
    ensures Found(es, h, x)
  {
    if es != [] {
      var front, e := es[..|es| - 1], es[|es| - 1];
      var s := After(front).value;
      assert es == front + [e];
      if Promised(s, h, x) {
        PairedOnlyIfFound(front, h, x);
        FoundLater(front, e, h, x);
      } else {
        Pairing.InvAlways(front);
        PromiseSource(s, e, h, x);
        assert es[..|front|] == front;
        assert FoundAt(es, |front|, h, x);
      }
    }
  }
}
