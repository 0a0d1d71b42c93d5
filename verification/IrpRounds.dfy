// The rounds of the handshake are a run that the server's rules allow, and they deliver.

module IrpRounds {
  import opened Basics
  import opened Bytes
  import opened IrpQueues
  import opened IrpCounting
  import opened IrpRuns
  import opened IrpTheorems
  import opened IrpOrder
  import opened IrpServing
  import H = IrpHandshake

  // Neither a locked buffer nor an exchange is outstanding.
  ghost predicate Calm(s: State) {
    forall x :: !Held(s, x) && !Outstanding(s, x)
  }

  lemma ObeyChain(s: State, t: nat, a: Action, s': State, rest: seq<Event>, size: nat, k: nat)
    requires H.Leads(s, t, a, s') && Possible(s', rest) && Obeys(s, a, size, k)
    requires Obeying(s', rest, size, k + Bit(Refuses(s, t, a)))
    ensures Possible(s, [Event(t, a)] + rest) && Obeying(s, [Event(t, a)] + rest, size, k)
    ensures Refusals(s, [Event(t, a)] + rest) == Bit(Refuses(s, t, a)) + Refusals(s', rest)
  {
    hide Enabled, Next, Obeys, Refuses;
    assert ([Event(t, a)] + rest)[1..] == rest;
  }

  lemma Freely(s: State, t: nat, a: Action, size: nat, k: nat)
    requires !a.LockCall? && !a.ExchangeCall? && !a.Disconnect? && !a.CancelAll?
    ensures Obeys(s, a, size, k) && (!a.Transfer? ==> !Refuses(s, t, a))
  {
  }

  lemma CallsObey(s: State, t: nat, r: H.Round, size: nat, k: nat)
    requires Calm(s) && r.lock.call.Lock? && r.exchange.call.Exchange? && r.exchange.call.output == 0
    requires r.lock.call.output == H.Offer(size, k)
    ensures Obeys(s, LockCall(r.lock, r.first, true, true), size, k)
    ensures var s2 := s.(memories := [Item(r.first, r.lock, NoMemory, true, 0)], issued := s.issued + {r.lock});
            Obeys(s2, ExchangeCall(r.exchange, true), size, k)
    ensures !Refuses(s, t, LockCall(r.lock, r.first, true, true)) && forall s2 :: !Refuses(s2, t, ExchangeCall(r.exchange, true))
  {
    hide H.Offer, DoneCount;
    var s2 := s.(memories := [Item(r.first, r.lock, NoMemory, true, 0)], issued := s.issued + {r.lock});
    forall x ensures !Outstanding(s2, x) {
      assert !Outstanding(s, x);
    }
  }

  lemma RoundObeys(s: State, t: nat, r: H.Round, end: seq<Event>, size: nat, k: nat)
    requires H.Ready(s, t) && H.Supplied(s, r) && Calm(s) && r.lock.call.output == H.Offer(size, k)
    requires Possible(H.Carrying(s, t, r), end) && Obeying(H.Carrying(s, t, r), end, size, k)
    ensures Possible(s, H.RoundRun(t, r, end)) && Obeying(s, H.RoundRun(t, r, end), size, k)
    ensures Refusals(s, H.RoundRun(t, r, end)) == Refusals(H.Carrying(s, t, r), end)
  {
    hide H.Ready, Calm, H.Leads, H.Locked, H.Carrying, Possible, Obeying, Obeys, Refuses, Refusals, H.Offer;
    H.ReadyFacts(s, t, r);
    CallsObey(s, t, r, size, k);
    var s1, s2 := H.LockRound(s, t, r);
    H.LockedByExchange(s, t, r, s2);
    var s3 := H.Locked(s, t, r);
    var s4, s5 := H.EmptyResponse(s, t, r);
    H.RequestTaken(s, t, r, s5);
    hide H.Supplied;
    var run := end;
    Freely(s5, t, Take(r.second, true), size, k);
    ObeyChain(s5, t, Take(r.second, true), H.Carrying(s, t, r), run, size, k);
    run := [Event(t, Take(r.second, true))] + run;
    Freely(s4, t, Respond(H.Empty(r), true), size, k);
    ObeyChain(s4, t, Respond(H.Empty(r), true), s5, run, size, k);
    run := [Event(t, Respond(H.Empty(r), true))] + run;
    Freely(s3, t, ReadTag(0), size, k);
    ObeyChain(s3, t, ReadTag(0), s4, run, size, k);
    run := [Event(t, ReadTag(0))] + run;
    ObeyChain(s2, t, ExchangeCall(r.exchange, true), s3, run, size, k);
    run := [Event(t, ExchangeCall(r.exchange, true))] + run;
    Freely(s1, t, QueueLock, size, k);
    ObeyChain(s1, t, QueueLock, s2, run, size, k);
    run := [Event(t, QueueLock)] + run;
    ObeyChain(s, t, LockCall(r.lock, r.first, true, true), s1, run, size, k);
    run := [Event(t, LockCall(r.lock, r.first, true, true))] + run;
    assert run == H.RoundRun(t, r, end);
  }

  lemma NoneObeys(s: State, size: nat, k: nat)
    ensures Possible(s, []) && After(s, []) == s && Obeying(s, [], size, k) && Refusals(s, []) == 0
  {
  }

  lemma RefusedObeys(s: State, t: nat, r: H.Round, size: nat, k: nat)
    requires H.Ready(s, t) && H.Supplied(s, r) && Calm(s) && r.lock.call.output == H.Offer(size, k)
    requires ClientKind(s.received[0].irp.call) && H.Size(r) < Need(s.received[0].irp.call)
    ensures Possible(s, H.RefusedRun(t, r)) && Obeying(s, H.RefusedRun(t, r), size, k) && Refusals(s, H.RefusedRun(t, r)) == 1
  {
    hide H.Ready, H.Supplied, Calm, H.Leads, H.Carrying, H.Refused, H.RoundRun, Possible, Obeying, Obeys, Refuses, Refusals, H.Offer, Need;
    H.ReadyFacts(s, t, r);
    H.Refuses(s, t, r);
    CarryingRefuses(s, t, r);
    NoneObeys(H.Refused(s, r), size, k + 1);
    Freely(H.Carrying(s, t, r), t, Transfer(true), size, k);
    ObeyChain(H.Carrying(s, t, r), t, Transfer(true), H.Refused(s, r), [], size, k);
    assert [Event(t, Transfer(true))] + [] == [Event(t, Transfer(true))];
    RoundObeys(s, t, r, [Event(t, Transfer(true))], size, k);
  }

  lemma CarryingRefuses(s: State, t: nat, r: H.Round)
    requires t < |s.threads| && s.received != [] && r.lock.call.Lock? && ClientKind(s.received[0].irp.call)
    ensures Refuses(H.Carrying(s, t, r), t, Transfer(true)) <==> H.Size(r) < Need(s.received[0].irp.call)
  {
    hide Need, ClientKind;
  }

  lemma DeliveredObeys(s: State, t: nat, r: H.Round, size: nat, k: nat)
    requires H.Ready(s, t) && H.Supplied(s, r) && Calm(s) && r.lock.call.output == H.Offer(size, k)
    requires ClientKind(s.received[0].irp.call) && H.Size(r) >= Need(s.received[0].irp.call)
    ensures Possible(s, H.DeliveredRun(t, r)) && Obeying(s, H.DeliveredRun(t, r), size, k) && Refusals(s, H.DeliveredRun(t, r)) == 0
  {
    hide H.Ready, H.Supplied, Calm, H.Leads, H.Carrying, H.Delivered, H.RoundRun, Possible, Obeying, Obeys, Refuses, Refusals, H.Offer, Need;
    H.ReadyFacts(s, t, r);
    var s7 := H.Delivers(s, t, r);
    CarryingRefuses(s, t, r);
    NoneObeys(H.Delivered(s, t, r), size, k);
    Freely(s7, t, Action.Return, size, k);
    ObeyChain(s7, t, Action.Return, H.Delivered(s, t, r), [], size, k);
    assert [Event(t, Action.Return)] + [] == [Event(t, Action.Return)];
    Freely(H.Carrying(s, t, r), t, Transfer(true), size, k);
    ObeyChain(H.Carrying(s, t, r), t, Transfer(true), s7, [Event(t, Action.Return)], size, k);
    RoundObeys(s, t, r, [Event(t, Transfer(true))] + [Event(t, Action.Return)], size, k);
  }

  lemma CalmAgain(s: State, r: H.Round)
    requires Calm(s)
    ensures Calm(H.Refused(s, r))
  {
    hide DoneCount;
    var s' := H.Refused(s, r);
    var d := [Fail(r.lock, TooSmall), Fail(r.exchange, TooSmall)];
    forall x ensures !Held(s', x) && !Outstanding(s', x) {
      assert !Held(s, x) && !Outstanding(s, x);
      DoneAppend(s.done, d, Of(x));
      TwoDone(d[0], d[1], Of(x));
    }
  }

  lemma {:induction false} ObeyingCompose(s: State, run: seq<Event>, rest: seq<Event>, size: nat, k: nat)
    requires Possible(s, run) && Possible(After(s, run), rest)
    requires Obeying(s, run, size, k) && Obeying(After(s, run), rest, size, k + Refusals(s, run))
    ensures Possible(s, run + rest) && Obeying(s, run + rest, size, k)
    ensures Refusals(s, run + rest) == Refusals(s, run) + Refusals(After(s, run), rest)
    decreases run
  {
    hide Enabled, Next, Obeys, Refuses;
    if run == [] {
      assert run + rest == rest;
    } else {
      assert (run + rest)[0] == run[0] && (run + rest)[1..] == run[1..] + rest;
      ObeyingCompose(Next(s, run[0].t, run[0].a), run[1..], rest, size, k + Bit(Refuses(s, run[0].t, run[0].a)));
    }
  }

  // The rounds of the handshake are such a run, with a refusal for each doubling.
  lemma {:induction false} HandshakeObeys(s: State, t: nat, key: seq<Byte>, size: nat, i: nat, n: nat, supply: nat)
    requires H.Ready(s, t) && H.Unused(s, supply) && Calm(s) && key != [] && ClientKind(s.received[0].irp.call)
    requires H.Enough(size, i, n, Need(s.received[0].irp.call)) && i <= n && H.Lockable(size, i, n)
    ensures var run := H.HandshakeRun(t, key, size, i, n, supply);
            Possible(s, run) && Obeying(s, run, size, i) && Refusals(s, run) == n - i
    decreases n - i
  {
    hide Inv, Fresh, Need, Calm, H.SizeAfter, H.Region, H.Enough, H.Lockable, Possible, After, Obeying, Refusals, H.RefusedRun,
      H.DeliveredRun;
    H.EnoughNext(size, i, n, Need(s.received[0].irp.call));
    var r := H.RoundAt(key, H.SizeAfter(size, i), supply);
    H.SuppliedFrom(s, key, H.SizeAfter(size, i), supply);
    if i == n {
      DeliveredObeys(s, t, r, size, i);
    } else {
        RefusedObeys(s, t, r, size, i);
      H.RoundRefused(s, t, r);
      H.ReadyAgain(s, t, key, H.SizeAfter(size, i), supply, H.RefusedRun(t, r));
      CalmAgain(s, r);
      HandshakeObeys(H.Refused(s, r), t, key, size, i + 1, n, supply + 2);
      ObeyingCompose(s, H.RefusedRun(t, r), H.HandshakeRun(t, key, size, i + 1, n, supply + 2), size, i);
    }
  }

  // The whole handshake, for a request of up to 2 GiB and a server that starts with any
  // buffer of whole pages: the rounds are a run that the server's rules allow, they end
  // after the least number of doublings, which is at most the binary logarithm of length by
  // initial size, rounded up, and they deliver that very request.
  lemma RequestIsDelivered(s: State, t: nat, key: seq<Byte>, size: nat, supply: nat) returns (n: nat)
    requires H.Ready(s, t) && H.Unused(s, supply) && Calm(s) && key != [] && ClientKind(s.received[0].irp.call)
    requires 0 < size && size + HEADER_SIZE < ULONG_BOUND && size % H.PAGE == 0
    requires HEADER_SIZE <= Need(s.received[0].irp.call) <= HEADER_SIZE + 0x8000_0000
    ensures H.Enough(size, 0, n, Need(s.received[0].irp.call))
    ensures n > 0 ==> size * PowerOfTwo(n - 1) < Need(s.received[0].irp.call) - HEADER_SIZE
    ensures H.Lockable(size, 0, n)
    ensures var run := H.HandshakeRun(t, key, size, 0, n, supply);
            && Possible(s, run) && Obeying(s, run, size, 0) && Refusals(s, run) == n
            && After(s, run).sent == s.sent + [s.received[0]] && After(s, run).received == s.received[1..]
  {
    hide H.Ready, H.Unused, Calm, Possible, After, Need, Obeying, Refusals, H.SizeAfter, H.Enough, H.Lockable, H.HandshakeRun;
    Waiting(s, t);
    n := H.DoublingsSuffice(size, 0, Need(s.received[0].irp.call));
    HandshakeObeys(s, t, key, size, 0, n, supply);
    H.HandshakeDelivers(s, t, key, size, 0, n, supply);
  }

  lemma Waiting(s: State, t: nat)
    requires H.Ready(s, t)
    ensures s.received != []
  {
  }
}
