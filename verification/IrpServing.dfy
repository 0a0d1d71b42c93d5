// The handshake for requests that do not fit, in every interleaving: a server that has one
// exchange and one locked buffer at a time and doubles the buffer on each refusal, and any
// number of client threads that do what they like.

module IrpServing {
  import opened Basics
  import opened IrpQueues
  import opened IrpCounting
  import opened IrpRuns
  import opened IrpTheorems
  import opened IrpOrder
  import H = IrpHandshake

  // A memory lock that the server has not got back.
  predicate Held(s: State, x: Irp) {
    x in s.issued && x.call.Lock? && DoneCount(s.done, Of(x)) == 0
  }

  // What the server does after k refusals: no exchange while one is outstanding, and none
  // with a buffer of its own; no second locked buffer, and each of the size of k doublings.
  ghost predicate Obeys(s: State, a: Action, size: nat, k: nat) {
    && Polite(s, a)
    && (a.ExchangeCall? && a.irp.call.Exchange? ==> a.irp.call.output == 0)
    && (a.LockCall? && a.irp.call.Lock? ==> a.irp.call.output == H.Offer(size, k) && forall x :: !Held(s, x))
  }

  ghost predicate Obeying(s: State, run: seq<Event>, size: nat, k: nat)
    requires Possible(s, run)
    decreases run
  {
    run == [] || (Obeys(s, run[0].a, size, k)
                  && Obeying(Next(s, run[0].t, run[0].a), run[1..], size, k + Bit(Refuses(s, run[0].t, run[0].a))))
  }

  function Refusals(s: State, run: seq<Event>): nat
    requires Possible(s, run)
    decreases run
  {
    if run == [] then 0 else Bit(Refuses(s, run[0].t, run[0].a)) + Refusals(Next(s, run[0].t, run[0].a), run[1..])
  }

  // The server's buffer is the one that the refusals so far have led to, wherever it is.
  ghost predicate OneLock(s: State) {
    forall x, y :: Held(s, x) && Held(s, y) ==> x == y
  }

  ghost predicate LocksSized(s: State, length: nat) {
    forall x :: Held(s, x) ==> x.call.output == length
  }

  ghost predicate Unbuffered(s: State) {
    forall x :: Outstanding(s, x) ==> x.call.output == 0
  }

  predicate InMemory(m: Memory, size: nat) {
    m.Memory? && m.irp.call.Lock? && size == m.irp.call.output
  }

  predicate SizedHand(pc: Pc) {
    match pc
    case Sending(_, server) => server.mapped ==> InMemory(server.memory, server.size)
    case Tagged(_, m, size) => InMemory(m, size)
    case Responding(_, m, size, _) => InMemory(m, size)
    case Taking(_, m, size) => InMemory(m, size)
    case _ => true
  }

  predicate Sized(s: State) {
    forall t :: 0 <= t < |s.threads| ==> SizedHand(s.threads[t])
  }

  ghost predicate Serves(s: State, length: nat) {
    OrderInv(s) && OneLock(s) && LocksSized(s, length) && Unbuffered(s) && Sized(s)
  }

  lemma HeldBefore(s: State, t: nat, a: Action, x: Irp)
    requires Enabled(s, t, a) && Polite(s, a) && Held(Next(s, t, a), x)
    ensures Held(s, x) || (a.LockCall? && x == a.irp)
  {
    hide Next, Fresh, Polite, DoneCount;
    StepGrows(s, t, a);
    PrefixCount(s.done, Next(s, t, a).done, Of(x));
  }

  lemma OutstandingBefore(s: State, t: nat, a: Action, x: Irp)
    requires Enabled(s, t, a) && Polite(s, a) && Outstanding(Next(s, t, a), x)
    ensures Outstanding(s, x) || (a.ExchangeCall? && x == a.irp)
  {
    hide Next, Fresh, Polite, DoneCount;
    StepGrows(s, t, a);
    PrefixCount(s.done, Next(s, t, a).done, Of(x));
  }

  lemma OneLockKept(s: State, t: nat, a: Action, size: nat, k: nat)
    requires OneLock(s) && LocksSized(s, H.Offer(size, k)) && Enabled(s, t, a) && Obeys(s, a, size, k)
    ensures OneLock(Next(s, t, a)) && LocksSized(Next(s, t, a), H.Offer(size, k))
  {
    hide Next, Fresh, Held, Polite, H.Offer;
    var s' := Next(s, t, a);
    forall x | Held(s', x) ensures Held(s, x) || (a.LockCall? && x == a.irp) {
      HeldBefore(s, t, a, x);
    }
  }

  lemma UnbufferedKept(s: State, t: nat, a: Action, size: nat, k: nat)
    requires Unbuffered(s) && Enabled(s, t, a) && Obeys(s, a, size, k)
    ensures Unbuffered(Next(s, t, a))
  {
    hide Next, Fresh, Outstanding, Polite, H.Offer, Held;
    var s' := Next(s, t, a);
    forall x | Outstanding(s', x) ensures Outstanding(s, x) || (a.ExchangeCall? && x == a.irp) {
      OutstandingBefore(s, t, a, x);
    }
  }

  // A reservation for an exchange without a buffer gets a locked one.
  lemma ReservedInMemory(s: State, irp: Irp, mapOk: bool)
    requires Typed(s) && irp.call.Exchange? && irp.call.output == 0
    ensures var r := Reserved(s.memories, irp, mapOk);
            r.Denied? || (r.Locked? && r.i < |s.memories| && LockItem(s.memories[r.i])
                          && InMemory(Taken(s.memories, r), TakenSize(s.memories, r)))
  {
    hide FindKey;
    ReservedIn(s, irp, mapOk);
  }

  // The hand of thread t after a step; no other changes.
  predicate HandAfter(s: State, s': State, t: nat) {
    t < |s.threads| && |s'.threads| == |s.threads| && SizedHand(s'.threads[t])
    && forall u :: 0 <= u < |s.threads| && u != t ==> s'.threads[u] == s.threads[u]
  }

  lemma SizedCalls(s: State, t: nat, a: Action)
    requires Sized(s) && Enabled(s, t, a)
    requires a.ClientCall? || a.Accept? || a.Return? || a.LockCall? || a.QueueLock?
    requires Typed(s)
    ensures HandAfter(s, Next(s, t, a), t)
  {
    hide Fresh, Typed, Requeued, ClientKind, InMemory, Sized;
    RequestsUnmapped(s);
  }

  lemma RequestsUnmapped(s: State)
    requires Typed(s)
    ensures s.requests != [] ==> !s.requests[0].mapped
  {
    hide HandOk, ClientItem, LockItem;
  }

  lemma SizedExchange(s: State, t: nat, irp: Irp, mapOk: bool)
    requires Typed(s) && Enabled(s, t, ExchangeCall(irp, mapOk)) && irp.call.output == 0
    ensures HandAfter(s, DoExchangeCall(s, t, irp, mapOk), t)
  {
    hide Fresh, Typed, Reserved, Taken, TakenSize, Rest, InMemory, LockItem;
    ReservedInMemory(s, irp, mapOk);
  }

  lemma SizedReserve(s: State, t: nat, mapOk: bool)
    requires Inv(s) && Unbuffered(s) && Enabled(s, t, Action.Reserve(mapOk))
    ensures HandAfter(s, DoReserve(s, t, mapOk), t)
  {
    hide Fresh, Inv, Outstanding, Reserved, Taken, TakenSize, Rest, InMemory, LockItem;
    WorksOnOutstanding(s, t);
    InvTyped(s);
    hide Typed;
    ReservedInMemory(s, s.threads[t].server.irp, mapOk);
  }

  lemma InvTyped(s: State)
    requires Inv(s)
    ensures Typed(s)
  {
  }

  lemma SizedWork(s: State, t: nat, a: Action)
    requires Sized(s) && Enabled(s, t, a) && (a.ReadTag? || a.Respond? || a.Take?)
    ensures HandAfter(s, Next(s, t, a), t)
  {
    hide Fresh, Requeued, Find, Without, Judge, InMemory, ClientKind;
    assert SizedHand(s.threads[t]);
  }

  lemma SizedTransfer(s: State, t: nat, mapOk: bool)
    requires Enabled(s, t, Transfer(mapOk))
    ensures HandAfter(s, DoTransfer(s, t, mapOk), t)
  {
    hide Fresh, InMemory, Need, RequestLength, ClientKind;
  }

  lemma SizedKept(s: State, t: nat, a: Action, size: nat, k: nat)
    requires Inv(s) && Sized(s) && Unbuffered(s) && Enabled(s, t, a) && Obeys(s, a, size, k)
    ensures Sized(Next(s, t, a))
  {
    hide Inv, Unbuffered, Polite, Fresh, HandAfter, Sized, DoClientCall, DoAccept, DoReserve, DoTransfer, DoExchangeCall, DoReadTag,
      DoRespond, DoTake, DoReturn, DoLockCall, DoQueueLock, DoCancelAll;
    InvTyped(s);
    match a {
      case ReadTag(_) => SizedWork(s, t, a);
      case Respond(_, _) => SizedWork(s, t, a);
      case Take(_, _) => SizedWork(s, t, a);
      case Reserve(mapOk) => SizedReserve(s, t, mapOk);
      case Transfer(mapOk) => SizedTransfer(s, t, mapOk);
      case ExchangeCall(irp, mapOk) => SizedExchange(s, t, irp, mapOk);
      case Disconnect => assert false by { NeverPolite(s, a); }
      case CancelAll => assert false by { NeverPolite(s, a); }
      case _ => SizedCalls(s, t, a);
    }
    SizedBy(s, Next(s, t, a), t);
  }

  lemma SizedBy(s: State, s': State, t: nat)
    requires Sized(s) && HandAfter(s, s', t)
    ensures Sized(s')
  {
    hide SizedHand;
  }

  lemma NeverPolite(s: State, a: Action)
    ensures Polite(s, a) ==> !a.Disconnect? && !a.CancelAll?
  {
  }

  // A buffer in a thread's hands is one that the server has not got back.
  lemma InHandHeld(s: State, t: nat)
    requires Inv(s) && t < |s.threads| && s.threads[t].Sending? && InMemory(s.threads[t].server.memory, s.threads[t].server.size)
    ensures Held(s, s.threads[t].server.memory.irp)
  {
    hide Typed, Count;
    var x := s.threads[t].server.memory.irp;
    CountOf(s, x);
    KindsCount(s, InHand(t), x);
  }

  lemma OfferInHand(s: State, t: nat, length: nat)
    requires Serves(s, length) && t < |s.threads| && s.threads[t].Sending? && s.threads[t].server.mapped
    ensures InMemory(s.threads[t].server.memory, s.threads[t].server.size) && s.threads[t].server.size == length
    ensures Held(s, s.threads[t].server.memory.irp)
  {
    hide OrderInv, OneLock, Unbuffered, Held;
    OrderIsInv(s);
    hide Inv;
    assert SizedHand(s.threads[t]);
    InHandHeld(s, t);
  }

  lemma OrderIsInv(s: State)
    requires OrderInv(s)
    ensures Inv(s)
  {
  }

  // A refusal gives the locked buffer back to the server.
  lemma RefusalReturns(s: State, t: nat, mapOk: bool)
    requires Refuses(s, t, Transfer(mapOk)) && InMemory(s.threads[t].server.memory, s.threads[t].server.size)
    ensures DoneCount(DoTransfer(s, t, mapOk).done, Of(s.threads[t].server.memory.irp)) > 0
  {
    hide DoneCount, Need, ClientKind;
    var server := s.threads[t].server;
    var d := [Completion(server.memory.irp, TooSmall, 0, Nothing), Fail(server.irp, TooSmall)];
    assert DoTransfer(s, t, mapOk).done == s.done + d;
    DoneAppend(s.done, d, Of(server.memory.irp));
    TwoDone(d[0], d[1], Of(server.memory.irp));
  }

  lemma NoneHeldAfterRefusal(s: State, t: nat, mapOk: bool, length: nat)
    requires Serves(s, length) && Enabled(s, t, Transfer(mapOk)) && Refuses(s, t, Transfer(mapOk))
    ensures forall x :: !Held(Next(s, t, Transfer(mapOk)), x)
  {
    hide OrderInv, Unbuffered, Sized, DoneCount, Fresh, DoTransfer, Need, InMemory;
    OfferInHand(s, t, length);
    RefusalReturns(s, t, mapOk);
    var a := Transfer(mapOk);
    forall x ensures !Held(Next(s, t, a), x) {
      if Held(Next(s, t, a), x) {
        HeldBefore(s, t, a, x);
      }
    }
  }

  // Every step of a server that obeys, and of any client, keeps all of this; a refusal
  // moves on to the next size.
  lemma ServesKept(s: State, t: nat, a: Action, size: nat, k: nat)
    requires Serves(s, H.Offer(size, k)) && Enabled(s, t, a) && Obeys(s, a, size, k)
    ensures Serves(Next(s, t, a), H.Offer(size, k + Bit(Refuses(s, t, a))))
  {
    hide OrderInv, OneLock, LocksSized, Unbuffered, Sized, Enabled, Next, Polite, Held, H.Offer, Refuses;
    OrderIsInv(s);
    hide Inv;
    ObeysPolitely(s, a, size, k);
    OrderPreserved(s, t, a);
    OneLockKept(s, t, a, size, k);
    UnbufferedKept(s, t, a, size, k);
    SizedKept(s, t, a, size, k);
    if Refuses(s, t, a) {
      RefusesIs(s, t, a);
      NoneHeldAfterRefusal(s, t, a.mapOk, H.Offer(size, k));
      NoneIsSized(Next(s, t, a), H.Offer(size, k + 1));
    }
  }

  lemma RefusesIs(s: State, t: nat, a: Action)
    requires Refuses(s, t, a)
    ensures a == Transfer(a.mapOk)
  {
  }

  lemma NoneIsSized(s: State, length: nat)
    requires forall x :: !Held(s, x)
    ensures LocksSized(s, length)
  {
  }

  lemma ObeysPolitely(s: State, a: Action, size: nat, k: nat)
    requires Obeys(s, a, size, k)
    ensures Polite(s, a)
  {
  }

  lemma {:induction false} ServesAfter(s: State, run: seq<Event>, size: nat, k: nat)
    requires Serves(s, H.Offer(size, k)) && Possible(s, run) && Obeying(s, run, size, k)
    ensures Serves(After(s, run), H.Offer(size, k + Refusals(s, run)))
    decreases run
  {
    hide Serves, Enabled, Next, Obeys, H.Offer, Refuses;
    if run != [] {
      ServesKept(s, run[0].t, run[0].a, size, k);
      ServesAfter(Next(s, run[0].t, run[0].a), run[1..], size, k + Bit(Refuses(s, run[0].t, run[0].a)));
    }
  }

  lemma InitServes(n: nat, length: nat)
    ensures Serves(Init(n), length)
  {
    InitOrder(n);
  }

  // In every such run from the start, a request is refused if and only if it does not fit
  // the buffer of as many doublings as there were refusals before.
  lemma TransferDecides(n: nat, run: seq<Event>, size: nat, t: nat, mapOk: bool)
    requires Possible(Init(n), run) && Obeying(Init(n), run, size, 0)
    requires Enabled(After(Init(n), run), t, Transfer(mapOk))
    ensures var s := After(Init(n), run);
            Refuses(s, t, Transfer(mapOk)) <==> H.Offer(size, Refusals(Init(n), run)) < Need(s.threads[t].client.irp.call)
  {
    hide Serves, Possible, After, Obeying, H.Offer, Need, Init, Fresh;
    InitServes(n, H.Offer(size, 0));
    ServesAfter(Init(n), run, size, 0);
    OfferInHand(After(Init(n), run), t, H.Offer(size, Refusals(Init(n), run)));
  }

  // A client request that is first in line: it is on its way into the server's buffer, or
  // at the head of its queue.
  predicate First(s: State, c: Item) {
    && (forall t :: 0 <= t < |s.threads| && s.threads[t].Sending? ==> s.threads[t].client == c && s.threads[t].server.mapped)
    && (NoneSending(s) ==> s.received != [] && s.received[0] == c)
  }

  predicate NoneSending(s: State) {
    forall t :: 0 <= t < |s.threads| ==> !s.threads[t].Sending?
  }

  // While a request is first in line no exchange waits.
  lemma NoneWaitsForFirst(s: State, c: Item)
    requires OrderInv(s) && First(s, c)
    ensures s.requests == []
  {
    hide Inv, OneExchange, InOrder, Connected;
    if s.requests != [] {
      NothingCarriedWhileWaiting(s);
    }
  }

  lemma FirstAccept(s: State, t: nat, c: Item)
    requires OrderInv(s) && First(s, c) && Enabled(s, t, Accept)
    ensures First(DoAccept(s, t), c) && DoAccept(s, t).left == s.left
  {
    hide OrderInv, Fresh, NoneSending;
    NoneWaitsForFirst(s, c);
    SameSending(s, DoAccept(s, t), t);
  }

  // A step of a thread that neither was sending nor is.
  lemma SameSending(s: State, s': State, t: nat)
    requires t < |s.threads| == |s'.threads| && s'.threads == s.threads[t := s'.threads[t]]
    requires !s.threads[t].Sending? && !s'.threads[t].Sending?
    ensures NoneSending(s') == NoneSending(s)
    ensures forall u :: 0 <= u < |s.threads| && s'.threads[u].Sending? ==> s'.threads[u] == s.threads[u]
  {
    forall u | 0 <= u < |s.threads| ensures s'.threads[u].Sending? == s.threads[u].Sending? {
    }
  }

  lemma FirstTake(s: State, t: nat, addr: nat, pool: bool, c: Item)
    requires OrderInv(s) && First(s, c) && Enabled(s, t, Take(addr, pool))
    ensures First(DoTake(s, t, addr, pool), c) && DoTake(s, t, addr, pool).left == s.left
  {
    hide OrderInv, Fresh, DoTake;
    CarriedBy(s, t);
    assert NoneSending(s);
    var pc := TakeShape(s, t, addr, pool);
    assert NoneSending(DoTake(s, t, addr, pool)) ==> !DoTake(s, t, addr, pool).threads[t].Sending?;
  }

  lemma FirstOther(s: State, t: nat, a: Action, c: Item)
    requires OrderInv(s) && First(s, c) && Enabled(s, t, a) && Polite(s, a)
    requires !a.Accept? && !a.Reserve? && !a.Transfer? && !a.Take?
    ensures First(Next(s, t, a), c) && Next(s, t, a).left == s.left
  {
    hide Enabled, Next, OrderInv, Polite;
    var pc := OtherSteps(s, t, a);
    SameSending(s, Next(s, t, a), t);
  }

  lemma FirstTransfer(s: State, t: nat, mapOk: bool, c: Item)
    requires OrderInv(s) && First(s, c) && Enabled(s, t, Transfer(mapOk))
    ensures Decided(s, t, mapOk, c)
    ensures Refuses(s, t, Transfer(mapOk)) ==> First(DoTransfer(s, t, mapOk), c)
  {
    hide OrderInv, Fresh, Refuses, DoTransfer, ClientKind;
    CarriedBy(s, t);
    TransferOutcome(s, t, mapOk);
    var pc := TransferShape(s, t, mapOk);
  }

  lemma TransferOutcome(s: State, t: nat, mapOk: bool)
    requires Enabled(s, t, Transfer(mapOk))
    ensures var s', client := DoTransfer(s, t, mapOk), s.threads[t].client;
            if Refuses(s, t, Transfer(mapOk)) then s'.received == [client] + s.received && s'.left == s.left
            else s'.received == s.received && s'.left == s.left + [client.irp] && (mapOk ==> s'.sent == s.sent + [client])
  {
    hide Fresh, Need, RequestLength, ClientKind;
  }

  // What becomes of the first request when it is transferred: refused, it is at the head of
  // its queue again; else it goes to the server under its tag, unless the copy of a write
  // finds no memory.
  predicate Decided(s: State, t: nat, mapOk: bool, c: Item) {
    t < |s.threads| && s.threads[t].Sending? && s.threads[t].client == c && ClientKind(c.irp.call) &&
    var s' := DoTransfer(s, t, mapOk);
    if Refuses(s, t, Transfer(mapOk)) then s'.received == [c] + s.received && s'.left == s.left
    else s'.received == s.received && s'.left == s.left + [c.irp] && (mapOk ==> s'.sent == s.sent + [c])
  }

  lemma FirstStep(s: State, t: nat, a: Action, c: Item)
    requires OrderInv(s) && First(s, c) && Enabled(s, t, a) && Polite(s, a)
    ensures a.Transfer? ==> Decided(s, t, a.mapOk, c)
    ensures if a.Transfer? && !Refuses(s, t, a) then Next(s, t, a).left == s.left + [c.irp]
            else Next(s, t, a).left == s.left && First(Next(s, t, a), c)
  {
    hide OrderInv, Polite, Refuses, DoAccept, DoTransfer, DoTake;
    match a
    case Accept => FirstAccept(s, t, c);
    case Reserve(_) => assert false;
    case Transfer(mapOk) => FirstTransfer(s, t, mapOk, c);
    case Take(addr, pool) => FirstTake(s, t, addr, pool, c);
    case _ => FirstOther(s, t, a, c);
  }

  lemma LeftStep(s: State, t: nat, a: Action)
    requires Enabled(s, t, a) && Polite(s, a)
    ensures s.left <= Next(s, t, a).left
  {
    hide Fresh, Polite, DoReserve, DoTransfer, DoTake;
    match a {
      case Accept =>
      case Reserve(mapOk) => var pc := ReserveShape(s, t, mapOk);
      case Transfer(mapOk) => var pc := TransferShape(s, t, mapOk);
      case Take(addr, pool) => var pc := TakeShape(s, t, addr, pool);
      case _ => var pc := OtherSteps(s, t, a);
    }
  }

  lemma {:induction false} LeftGrows(s: State, run: seq<Event>)
    requires OrderInv(s) && Possible(s, run) && PoliteRun(s, run)
    ensures s.left <= After(s, run).left
    decreases run
  {
    hide OrderInv, Enabled, Next, Polite;
    if run != [] {
      LeftStep(s, run[0].t, run[0].a);
      OrderPreserved(s, run[0].t, run[0].a);
      LeftGrows(Next(s, run[0].t, run[0].a), run[1..]);
    }
  }

  lemma {:induction false} ObeyingPolitely(s: State, run: seq<Event>, size: nat, k: nat)
    requires Possible(s, run) && Obeying(s, run, size, k)
    ensures PoliteRun(s, run)
    decreases run
  {
    hide Enabled, Next, Refuses, Obeys, Polite;
    if run != [] {
      ObeysPolitely(s, run[0].a, size, k);
      ObeyingPolitely(Next(s, run[0].t, run[0].a), run[1..], size, k + Bit(Refuses(s, run[0].t, run[0].a)));
    }
  }

  // The refusals of a run until some request goes to the server.
  function Tries(s: State, run: seq<Event>): nat
    requires Possible(s, run)
    decreases run
  {
    if run == [] || Next(s, run[0].t, run[0].a).left != s.left then 0
    else Bit(Refuses(s, run[0].t, run[0].a)) + Tries(Next(s, run[0].t, run[0].a), run[1..])
  }

  lemma {:induction false} HandshakeFrom(s: State, run: seq<Event>, c: Item, size: nat, k: nat, n: nat)
    requires Serves(s, H.Offer(size, k)) && First(s, c) && ClientKind(c.irp.call) && H.Enough(size, k, n, Need(c.irp.call))
    requires Possible(s, run) && Obeying(s, run, size, k)
    ensures var s' := After(s, run);
            && k + Tries(s, run) <= n
            && (if s'.left == s.left then
                  First(s', c) && Serves(s', H.Offer(size, k + Tries(s, run))) && H.Enough(size, k + Tries(s, run), n, Need(c.irp.call))
                else k + Tries(s, run) == n && s.left + [c.irp] <= s'.left)
    decreases run
  {
    hide Serves, Enabled, Next, Obeys, H.Offer, Refuses, First, Need, H.Enough, Decided;
    H.EnoughNext(size, k, n, Need(c.irp.call));
    if run != [] {
      var t, a := run[0].t, run[0].a;
      var s1 := Next(s, t, a);
      ObeysPolitely(s, a, size, k);
      ServesKept(s, t, a, size, k);
      ServesInOrder(s, H.Offer(size, k));
      ServesInOrder(s1, H.Offer(size, k + Bit(Refuses(s, t, a))));
      FirstStep(s, t, a, c);
      OnlyTransfers(s, t, a);
      if a.Transfer? {
        FitsOrNot(s, t, a.mapOk, c, H.Offer(size, k));
      }
      if s1.left == s.left {
        HandshakeFrom(s1, run[1..], c, size, k + Bit(Refuses(s, t, a)), n);
      } else {
        ObeyingPolitely(s1, run[1..], size, k + Bit(Refuses(s, t, a)));
        LeftGrows(s1, run[1..]);
      }
    }
  }

  lemma OnlyTransfers(s: State, t: nat, a: Action)
    ensures !a.Transfer? ==> !Refuses(s, t, a)
  {
  }

  lemma ServesInOrder(s: State, length: nat)
    requires Serves(s, length)
    ensures OrderInv(s)
  {
  }

  lemma FitsOrNot(s: State, t: nat, mapOk: bool, c: Item, length: nat)
    requires Serves(s, length) && First(s, c) && Enabled(s, t, Transfer(mapOk)) && ClientKind(c.irp.call)
    ensures Refuses(s, t, Transfer(mapOk)) <==> length < Need(c.irp.call)
  {
    hide Serves, Fresh, Need;
    OfferInHand(s, t, length);
  }

  // In every run of an obeying server, from the moment a client request is first in line:
  // it stays first until it goes to the server, whatever the other threads do; it is refused
  // at most as often as the buffer has to be doubled for it; and the transfer after that
  // many refusals is the one that sends it.
  lemma HandshakeInEveryRun(m: nat, before: seq<Event>, run: seq<Event>, c: Item, size: nat, n: nat)
    requires Possible(Init(m), before) && Obeying(Init(m), before, size, 0)
    requires var s, k := After(Init(m), before), Refusals(Init(m), before);
             && First(s, c) && ClientKind(c.irp.call) && H.Enough(size, k, n, Need(c.irp.call))
             && Possible(s, run) && Obeying(s, run, size, k)
    ensures var s, k := After(Init(m), before), Refusals(Init(m), before);
            var s', r := After(s, run), Tries(s, run);
            && k + r <= n
            && (s'.left != s.left ==> k + r == n && s.left + [c.irp] <= s'.left)
            && (s'.left == s.left ==>
                  First(s', c) && forall t, mapOk :: Enabled(s', t, Transfer(mapOk)) ==>
                                    Decided(s', t, mapOk, c) && (Refuses(s', t, Transfer(mapOk)) <==> k + r < n))
  {
    hide Serves, Possible, After, Enabled, Obeying, H.Offer, Refuses, First, Decided, Need, H.Enough, Init, Refusals, Tries;
    InitServes(m, H.Offer(size, 0));
    ServesAfter(Init(m), before, size, 0);
    var s, k := After(Init(m), before), Refusals(Init(m), before);
    HandshakeFrom(s, run, c, size, k, n);
    var s', r := After(s, run), Tries(s, run);
    if s'.left == s.left {
      H.EnoughNext(size, k + r, n, Need(c.irp.call));
      ServesInOrder(s', H.Offer(size, k + r));
      forall t, mapOk | Enabled(s', t, Transfer(mapOk))
        ensures Decided(s', t, mapOk, c) && (Refuses(s', t, Transfer(mapOk)) <==> k + r < n)
      {
        FirstTransfer(s', t, mapOk, c);
        FitsOrNot(s', t, mapOk, c, H.Offer(size, k + r));
      }
    }
  }

  // A request that no doubling makes room for is refused for ever.
  lemma {:induction false} TooLargeForEver(s: State, run: seq<Event>, c: Item, size: nat, k: nat)
    requires Serves(s, H.Offer(size, k)) && First(s, c) && ClientKind(c.irp.call)
    requires forall j :: j >= k ==> H.Offer(size, j) < Need(c.irp.call)
    requires Possible(s, run) && Obeying(s, run, size, k)
    ensures After(s, run).left == s.left && First(After(s, run), c)
    decreases run
  {
    hide Serves, Enabled, Next, Obeys, H.Offer, Refuses, First, Need, Decided;
    if run != [] {
      var t, a := run[0].t, run[0].a;
      ObeysPolitely(s, a, size, k);
      ServesKept(s, t, a, size, k);
      ServesInOrder(s, H.Offer(size, k));
      FirstStep(s, t, a, c);
      if a.Transfer? {
        FitsOrNot(s, t, a.mapOk, c, H.Offer(size, k));
      }
      TooLargeForEver(Next(s, t, a), run[1..], c, size, k + Bit(Refuses(s, t, a)));
    }
  }

  // From a buffer whose size is a power of two there is a sufficient doubling if and only
  // if the request needs at most 2 GiB behind the header.
  lemma RoomExactlyTo2GiB(j: nat, need: nat)
    requires 12 <= j < 32 && HEADER_SIZE <= need
    ensures (exists k :: H.Offer(PowerOfTwo(j), k) >= need) <==> need <= HEADER_SIZE + 0x8000_0000
  {
    hide PowerOfTwo, H.Offer, H.SizeAfter;
    var size := PowerOfTwo(j);
    if need <= HEADER_SIZE + 0x8000_0000 {
      H.GrowsExactlyTo(j, need - HEADER_SIZE);
      var k :| H.SizeAfter(size, k) >= need - HEADER_SIZE;
      OfferOfPower(j, k);
      assert H.Offer(size, k) >= need;
    } else {
      forall k ensures H.Offer(size, k) < need {
        OfferOfPower(j, k);
      }
    }
  }

  lemma OfferOfPower(j: nat, k: nat)
    requires 12 <= j < 32
    ensures H.Offer(PowerOfTwo(j), k) == HEADER_SIZE + H.SizeAfter(PowerOfTwo(j), k) <= HEADER_SIZE + 0x8000_0000
  {
    hide PowerOfTwo, H.SizeAfter;
    H.NeverMore(j, k);
  }

  // For a server with a buffer of whole pages this is the case exactly if the request needs
  // more than the longest region that is still to come.
  lemma TooLargeExactly(size: nat, k: nat, need: nat)
    requires size % H.PAGE == 0 && size < ULONG_BOUND
    ensures (forall j :: j >= k ==> H.Offer(size, j) < need) <==> need > H.Greatest(size, k)
  {
    hide H.Offer, H.Greatest;
    var n := H.GreatestReached(size, k);
    forall j | j >= k ensures H.Offer(size, j) <= H.Greatest(size, k) {
      H.GreatestBounds(size, k, j);
    }
  }

  const LARGE: Item := Item(1, Irp(0, Read(0, 0x8000_0001)), NoMemory, false, 0)

  // A read of one byte more than 2 GiB, to a server whose buffer is a power of two: it comes
  // first in line, and no run that follows sends it.
  lemma LargeReadIsNeverSent(j: nat) returns (run: seq<Event>)
    requires 12 <= j < 32
    ensures Possible(Init(1), run) && Obeying(Init(1), run, PowerOfTwo(j), 0)
    ensures var s := After(Init(1), run);
            && First(s, LARGE) && s.issued == {LARGE.irp}
            && forall more :: Possible(s, more) && Obeying(s, more, PowerOfTwo(j), Refusals(Init(1), run)) ==>
                 After(s, more).left == [] && First(After(s, more), LARGE)
  {
    hide Possible, After, Obeying, Refusals, Serves, First, H.Offer, PowerOfTwo, Init;
    run := LargeComes(PowerOfTwo(j));
    var s := After(Init(1), run);
    InitServes(1, H.Offer(PowerOfTwo(j), 0));
    ServesAfter(Init(1), run, PowerOfTwo(j), 0);
    forall n ensures H.Offer(PowerOfTwo(j), n) < Need(LARGE.irp.call) {
      OfferOfPower(j, n);
    }
    forall more | Possible(s, more) && Obeying(s, more, PowerOfTwo(j), Refusals(Init(1), run))
      ensures After(s, more).left == [] && First(After(s, more), LARGE)
    {
      TooLargeForEver(s, more, LARGE, PowerOfTwo(j), Refusals(Init(1), run));
    }
  }

  lemma LargeComes(size: nat) returns (run: seq<Event>)
    ensures Possible(Init(1), run) && Obeying(Init(1), run, size, 0)
    ensures var s := After(Init(1), run); First(s, LARGE) && s.left == [] && s.issued == {LARGE.irp}
  {
    var e1, e2 := Event(0, ClientCall(LARGE.irp, 1, true)), Event(0, Accept);
    run := [e1, e2];
    var s0 := Init(1);
    assert s0.threads == [Idle];
    AllIdle(1, At(1));
    var s1 := Next(s0, e1.t, e1.a);
    assert s1.threads == [Accepting(LARGE)];
    var s2 := Next(s1, e2.t, e2.a);
    assert s2.threads == [Idle] && s2.received == [LARGE];
    assert run[1..] == [e2] && [e2][1..] == [];
    assert Possible(s2, []) && After(s2, []) == s2 && Obeying(s2, [], size, 0);
    assert Possible(s1, [e2]) && After(s1, [e2]) == s2 && Obeying(s1, [e2], size, 0);
  }
}
