// The order in which client requests reach a server that, like devio, has one exchange
// outstanding at a time, up to a disconnect.

module IrpOrder {
  import opened Basics
  import opened IrpQueues
  import opened IrpCounting
  import opened IrpRuns
  import opened IrpTheorems

  // An exchange that the server still waits for.
  predicate Outstanding(s: State, x: Irp) {
    x in s.issued && x.call.Exchange? && DoneCount(s.done, Of(x)) == 0
  }

  ghost predicate Polite(s: State, a: Action) {
    && !a.Disconnect? && !a.CancelAll?
    && (a.ExchangeCall? ==> forall x :: !Outstanding(s, x))
  }

  ghost predicate PoliteRun(s: State, run: seq<Event>)
    requires Possible(s, run)
    decreases run
  {
    run == [] || (Polite(s, run[0].a) && PoliteRun(Next(s, run[0].t, run[0].a), run[1..]))
  }

  // The client requests that are on their way into a server buffer.
  function Carried(threads: seq<Pc>): seq<Irp> {
    if threads == [] then []
    else (if threads[0].Sending? then [threads[0].client.irp] else []) + Carried(threads[1..])
  }

  ghost predicate OneExchange(s: State) {
    forall x, y :: Outstanding(s, x) && Outstanding(s, y) ==> x == y
  }

  predicate Connected(s: State) {
    s.server && forall t :: 0 <= t < |s.threads| ==> !s.threads[t].Cancelling?
  }

  predicate NotBoth(s: State) {
    s.requests != [] ==> s.received == []
  }

  predicate InOrder(s: State) {
    s.arrived == s.left + Carried(s.threads) + Irps(s.received)
  }

  function Irps(q: seq<Item>): seq<Irp> {
    seq(|q|, i requires 0 <= i < |q| => q[i].irp)
  }

  ghost predicate OrderInv(s: State) {
    Inv(s) && OneExchange(s) && Connected(s) && NotBoth(s) && InOrder(s)
  }

  // A thread that works on an exchange holds an outstanding one.
  predicate Works(pc: Pc) {
    pc.Sending? || pc.Tagged? || pc.Responding? || pc.Taking?
  }

  function Worked(pc: Pc): Irp
    requires Works(pc)
  {
    match pc
    case Sending(_, server) => server.irp
    case Tagged(irp, _, _) => irp
    case Responding(irp, _, _, _) => irp
    case Taking(irp, _, _) => irp
  }

  lemma WorksOnOutstanding(s: State, t: nat)
    requires Inv(s) && t < |s.threads| && Works(s.threads[t])
    ensures Outstanding(s, Worked(s.threads[t]))
  {
    hide Typed, Count;
    HandTyped(s, t);
    var x := Worked(s.threads[t]);
    CountOf(s, x);
    KindsCount(s, InHand(t), x);
  }

  lemma WaitsOutstanding(s: State, i: nat)
    requires Inv(s) && i < |s.requests|
    ensures Outstanding(s, s.requests[i].irp)
  {
    hide Count;
    var x := s.requests[i].irp;
    CountOf(s, x);
    KindsCount(s, InRequests(i), x);
  }

  // With one exchange outstanding at most one thread works on one, and then none waits.
  lemma OneWorker(s: State, t: nat, u: nat)
    requires OrderInv(s) && t < |s.threads| && u < |s.threads| && Works(s.threads[t]) && Works(s.threads[u])
    ensures t == u
  {
    hide Inv, NotBoth, InOrder, Connected;
    WorksOnOutstanding(s, t);
    WorksOnOutstanding(s, u);
    if t != u {
      SameExchange(s, InHand(t), InHand(u), Worked(s.threads[t]));
    }
  }

  lemma NoneWaits(s: State, t: nat)
    requires OrderInv(s) && t < |s.threads| && Works(s.threads[t])
    ensures s.requests == []
  {
    hide Inv, NotBoth, InOrder, Connected;
    WorksOnOutstanding(s, t);
    if s.requests != [] {
      WaitsOutstanding(s, 0);
      SameExchange(s, InHand(t), InRequests(0), Worked(s.threads[t]));
    }
  }

  lemma SameExchange(s: State, p: Place, q: Place, x: Irp)
    requires Inv(s) && Holds(s, p, x) && Holds(s, q, x)
    ensures p == q
  {
    hide Inv, Holds;
    OnePlace(s, x);
  }

  lemma {:induction false} NothingCarried(threads: seq<Pc>)
    requires forall t :: 0 <= t < |threads| ==> !threads[t].Sending?
    ensures Carried(threads) == []
  {
    if threads != [] {
      NothingCarried(threads[1..]);
    }
  }

  lemma {:induction false} OneCarried(threads: seq<Pc>, t: nat)
    requires t < |threads| && threads[t].Sending?
    requires forall u :: 0 <= u < |threads| && u != t ==> !threads[u].Sending?
    ensures Carried(threads) == [threads[t].client.irp]
  {
    if t == 0 {
      NothingCarried(threads[1..]);
    } else {
      OneCarried(threads[1..], t - 1);
    }
  }

  lemma {:induction false} SameCarried(threads: seq<Pc>, t: nat, pc: Pc)
    requires t < |threads|
    requires if threads[t].Sending? then pc.Sending? && pc.client == threads[t].client else !pc.Sending?
    ensures Carried(threads[t := pc]) == Carried(threads)
  {
    if t == 0 {
      assert threads[t := pc][1..] == threads[1..];
    } else {
      assert threads[t := pc][1..] == threads[1..][t - 1 := pc];
      SameCarried(threads[1..], t - 1, pc);
    }
  }

  // What is carried when thread t, and so no other, works on the exchange.
  lemma CarriedBy(s: State, t: nat)
    requires OrderInv(s) && t < |s.threads| && Works(s.threads[t])
    ensures Carried(s.threads) == if s.threads[t].Sending? then [s.threads[t].client.irp] else []
    ensures forall u :: 0 <= u < |s.threads| && u != t ==> !s.threads[u].Sending?
  {
    hide OrderInv;
    forall u | 0 <= u < |s.threads| && u != t ensures !s.threads[u].Sending? {
      if s.threads[u].Sending? {
        OneWorker(s, t, u);
      }
    }
    if s.threads[t].Sending? {
      OneCarried(s.threads, t);
    } else {
      NothingCarried(s.threads);
    }
  }

  lemma CarriedAfter(s: State, t: nat, pc: Pc)
    requires t < |s.threads|
    requires forall u :: 0 <= u < |s.threads| && u != t ==> !s.threads[u].Sending?
    ensures Carried(s.threads[t := pc]) == if pc.Sending? then [pc.client.irp] else []
  {
    var threads := s.threads[t := pc];
    if pc.Sending? {
      OneCarried(threads, t);
    } else {
      NothingCarried(threads);
    }
  }

  // Nothing is carried while an exchange waits.
  lemma NothingCarriedWhileWaiting(s: State)
    requires OrderInv(s) && s.requests != []
    ensures forall u :: 0 <= u < |s.threads| ==> !s.threads[u].Sending?
  {
    hide OrderInv;
    forall u | 0 <= u < |s.threads| ensures !s.threads[u].Sending? {
      if s.threads[u].Sending? {
        NoneWaits(s, u);
      }
    }
  }

  lemma {:induction false} PrefixCount(p: seq<Completion>, q: seq<Completion>, x: Token)
    requires p <= q
    ensures DoneCount(p, x) <= DoneCount(q, x)
  {
    assert q == p + q[|p|..];
    DoneAppend(p, q[|p|..], x);
  }

  // Nothing leaves the log, and only a call brings a request in.
  predicate Grows(s: State, s': State, a: Action) {
    && s.done <= s'.done
    && s'.issued == s.issued + (match a
                                case ClientCall(irp, _, _) => {irp}
                                case ExchangeCall(irp, _) => {irp}
                                case LockCall(irp, _, _, _) => {irp}
                                case _ => {})
  }

  lemma StepGrows(s: State, t: nat, a: Action)
    requires Enabled(s, t, a) && Polite(s, a)
    ensures Grows(s, Next(s, t, a), a)
  {
    hide Fresh, Find, FindKey, Reserved, Taken, TakenSize, Rest, Requeued, Judge, Need, RequestLength, Outstanding, ClientKind;
    if a.Reserve? || a.Transfer? {
      SendGrows(s, t, a);
    }
  }

  lemma SendGrows(s: State, t: nat, a: Action)
    requires Enabled(s, t, a) && (a.Reserve? || a.Transfer?)
    ensures Grows(s, Next(s, t, a), a)
  {
    hide Fresh, Reserved, Taken, TakenSize, Rest, Need, RequestLength, ClientKind;
  }

  lemma OneExchangeKept(s: State, t: nat, a: Action)
    requires OneExchange(s) && Enabled(s, t, a) && Polite(s, a)
    ensures OneExchange(Next(s, t, a))
  {
    hide Next, Fresh;
    StepGrows(s, t, a);
    var s' := Next(s, t, a);
    forall x | Outstanding(s', x) ensures Outstanding(s, x) || (a.ExchangeCall? && x == a.irp) {
      PrefixCount(s.done, s'.done, Of(x));
    }
  }

  // The parts of the state that the order depends on.
  predicate SameOrder(s: State, s': State, t: nat, pc: Pc) {
    && s'.server == s.server && s'.arrived == s.arrived && s'.left == s.left
    && s'.received == s.received && s'.requests == s.requests
    && t < |s.threads| && s'.threads == s.threads[t := pc]
  }

  lemma OtherSteps(s: State, t: nat, a: Action) returns (pc: Pc)
    requires Enabled(s, t, a) && Polite(s, a)
    requires !a.Accept? && !a.Reserve? && !a.Transfer? && !a.Take?
    ensures SameOrder(s, Next(s, t, a), t, pc)
    ensures !pc.Sending? && !pc.Cancelling? && !s.threads[t].Sending?
  {
    hide Fresh, Find, FindKey, Reserved, Taken, TakenSize, Rest, Requeued, Judge, Need, RequestLength, Outstanding;
    pc := Next(s, t, a).threads[t];
  }

  lemma StillConnected(s: State, s': State, t: nat, pc: Pc)
    requires Connected(s) && t < |s.threads| && s'.server == s.server && s'.threads == s.threads[t := pc] && !pc.Cancelling?
    ensures Connected(s')
  {
  }

  lemma OtherOrder(s: State, t: nat, a: Action)
    requires OrderInv(s) && Enabled(s, t, a) && Polite(s, a)
    requires !a.Accept? && !a.Reserve? && !a.Transfer? && !a.Take?
    ensures var s' := Next(s, t, a); Connected(s') && NotBoth(s') && InOrder(s')
  {
    hide Enabled, Next, Inv, OneExchange, Connected, Carried;
    var pc := OtherSteps(s, t, a);
    SameCarried(s.threads, t, pc);
    StillConnected(s, Next(s, t, a), t, pc);
  }

  // A client request that arrives joins its queue, or goes on with the exchange that waits.
  lemma AcceptShape(s: State, t: nat) returns (pc: Pc)
    requires Enabled(s, t, Accept) && s.server
    ensures var s', client := DoAccept(s, t), s.threads[t].client;
            && s'.server == s.server && s'.left == s.left && s'.arrived == s.arrived + [client.irp]
            && s'.threads == s.threads[t := pc] && !pc.Cancelling? && !s.threads[t].Sending?
            && (if pc.Sending? then pc.client == client && s.requests != [] && s'.received == s.received
                else s.requests == s'.requests == [] && s'.received == s.received + [client])
  {
    hide Fresh;
    pc := DoAccept(s, t).threads[t];
  }

  lemma AcceptOrder(s: State, t: nat)
    requires OrderInv(s) && Enabled(s, t, Accept)
    ensures var s' := DoAccept(s, t); Connected(s') && NotBoth(s') && InOrder(s')
  {
    hide Inv, OneExchange, Fresh, DoAccept, Carried;
    var client := s.threads[t].client;
    var pc := AcceptShape(s, t);
    StillConnected(s, DoAccept(s, t), t, pc);
    hide Connected;
    IrpsPush(s.received, client);
    if pc.Sending? {
      NothingCarriedWhileWaiting(s);
      NothingCarried(s.threads);
      CarriedAfter(s, t, pc);
    } else {
      SameCarried(s.threads, t, pc);
    }
  }

  lemma IrpsPush(q: seq<Item>, item: Item)
    ensures Irps(q + [item]) == Irps(q) + [item.irp]
    ensures Irps([item] + q) == [item.irp] + Irps(q)
  {
  }

  // A reservation leaves the request with its thread, or ends it.
  lemma ReserveShape(s: State, t: nat, mapOk: bool) returns (pc: Pc)
    requires Enabled(s, t, Action.Reserve(mapOk))
    ensures var s', client := DoReserve(s, t, mapOk), s.threads[t].client;
            && s'.server == s.server && s'.arrived == s.arrived && s'.requests == s.requests && s'.received == s.received
            && s'.threads == s.threads[t := pc] && !pc.Cancelling?
            && (if pc.Sending? then pc.client == client && s'.left == s.left else s'.left == s.left + [client.irp])
  {
    hide Fresh, Reserved, Taken, TakenSize, Rest;
    pc := DoReserve(s, t, mapOk).threads[t];
  }

  lemma ReserveOrder(s: State, t: nat, mapOk: bool)
    requires OrderInv(s) && Enabled(s, t, Action.Reserve(mapOk))
    ensures var s' := DoReserve(s, t, mapOk); Connected(s') && NotBoth(s') && InOrder(s')
  {
    hide Inv, OneExchange, Fresh, DoReserve, Connected, Carried;
    CarriedBy(s, t);
    var pc := ReserveShape(s, t, mapOk);
    CarriedAfter(s, t, pc);
    StillConnected(s, DoReserve(s, t, mapOk), t, pc);
  }

  // A transfer passes the request on, or puts it back at the head.
  predicate Passed(s: State, s': State, client: Item) {
    (s'.left == s.left + [client.irp] && s'.received == s.received) || (s'.left == s.left && s'.received == [client] + s.received)
  }

  lemma TransferShape(s: State, t: nat, mapOk: bool) returns (pc: Pc)
    requires Enabled(s, t, Transfer(mapOk))
    ensures var s' := DoTransfer(s, t, mapOk);
            && s'.server == s.server && s'.arrived == s.arrived && s'.requests == s.requests
            && s'.threads == s.threads[t := pc] && !pc.Sending? && !pc.Cancelling?
            && Passed(s, s', s.threads[t].client)
  {
    hide Fresh, Need, RequestLength;
    pc := DoTransfer(s, t, mapOk).threads[t];
  }

  lemma TransferOrder(s: State, t: nat, mapOk: bool)
    requires OrderInv(s) && Enabled(s, t, Transfer(mapOk))
    ensures var s' := DoTransfer(s, t, mapOk); Connected(s') && NotBoth(s') && InOrder(s')
  {
    hide Inv, OneExchange, Fresh, DoTransfer, Connected, Carried;
    var client := s.threads[t].client;
    CarriedBy(s, t);
    NoneWaits(s, t);
    var pc := TransferShape(s, t, mapOk);
    CarriedAfter(s, t, pc);
    StillConnected(s, DoTransfer(s, t, mapOk), t, pc);
    IrpsPush(s.received, client);
  }

  // Taking the next request carries the head of the queue, or finds it empty.
  lemma TakeShape(s: State, t: nat, addr: nat, pool: bool) returns (pc: Pc)
    requires Enabled(s, t, Take(addr, pool))
    ensures var s' := DoTake(s, t, addr, pool);
            && s'.server == s.server && s'.arrived == s.arrived && s'.left == s.left
            && s'.threads == s.threads[t := pc] && !pc.Cancelling?
            && (if pc.Sending? then s.received == [pc.client] + s'.received && s'.requests == s.requests && pc.server.mapped
                else s'.received == s.received && (s'.requests != s.requests ==> s.received == []))
  {
    hide Fresh, Requeued;
    pc := DoTake(s, t, addr, pool).threads[t];
    if s.received != [] {
      assert s.received == [s.received[0]] + s.received[1..];
    }
  }

  // The head of the queue in hand keeps the order.
  lemma HeadInHand(s: State, s': State, client: Item)
    requires InOrder(s) && Carried(s.threads) == [] && Carried(s'.threads) == [client.irp]
    requires s'.arrived == s.arrived && s'.left == s.left && s.received == [client] + s'.received
    ensures InOrder(s')
  {
    hide Carried;
    IrpsPush(s'.received, client);
  }

  lemma NothingInHand(s: State, s': State)
    requires InOrder(s) && Carried(s.threads) == Carried(s'.threads)
    requires s'.arrived == s.arrived && s'.left == s.left && s.received == s'.received
    ensures InOrder(s')
  {
    hide Carried;
  }

  lemma TakeOrder(s: State, t: nat, addr: nat, pool: bool)
    requires OrderInv(s) && Enabled(s, t, Take(addr, pool))
    ensures var s' := DoTake(s, t, addr, pool); Connected(s') && NotBoth(s') && InOrder(s')
  {
    hide Inv, OneExchange, Fresh, DoTake, Connected, InOrder, Carried;
    var s' := DoTake(s, t, addr, pool);
    CarriedBy(s, t);
    NoneWaits(s, t);
    var pc := TakeShape(s, t, addr, pool);
    CarriedAfter(s, t, pc);
    StillConnected(s, s', t, pc);
    if pc.Sending? {
      HeadInHand(s, s', pc.client);
    } else {
      NothingInHand(s, s');
    }
  }

  lemma OrderPreserved(s: State, t: nat, a: Action)
    requires OrderInv(s) && Enabled(s, t, a) && Polite(s, a)
    ensures OrderInv(Next(s, t, a))
  {
    hide Inv, OneExchange, Connected, NotBoth, InOrder, Polite, DoAccept, DoReserve, DoTransfer, DoTake;
    InvPreserved(s, t, a);
    OneExchangeKept(s, t, a);
    match a
    case Accept => AcceptOrder(s, t);
    case Reserve(mapOk) => ReserveOrder(s, t, mapOk);
    case Transfer(mapOk) => TransferOrder(s, t, mapOk);
    case Take(addr, pool) => TakeOrder(s, t, addr, pool);
    case _ => OtherOrder(s, t, a);
  }

  lemma {:induction false} OrderAfter(s: State, run: seq<Event>)
    requires OrderInv(s) && Possible(s, run) && PoliteRun(s, run)
    ensures OrderInv(After(s, run))
    decreases run
  {
    hide OrderInv, Enabled, Next, Polite;
    if run != [] {
      OrderPreserved(s, run[0].t, run[0].a);
      OrderAfter(Next(s, run[0].t, run[0].a), run[1..]);
    }
  }

  lemma InitOrder(n: nat)
    ensures OrderInv(Init(n))
  {
    InitInv(n);
    NothingCarried(Init(n).threads);
  }

  // While the server has one exchange outstanding at a time, requests go to it in the
  // order in which they arrived, also when one was put back because the buffer was too
  // small; and a client request never waits while an exchange waits.
  lemma ServedInOrder(n: nat, run: seq<Event>)
    requires Possible(Init(n), run) && PoliteRun(Init(n), run)
    ensures var s := After(Init(n), run);
            && s.left <= s.arrived
            && (s.requests == [] || s.received == [])
  {
    InitOrder(n);
    OrderAfter(Init(n), run);
  }

  lemma RequestsStep(s: State, t: nat, a: Action) returns (k: nat, come: seq<Item>)
    requires Enabled(s, t, a)
    ensures k <= |s.requests| && Next(s, t, a).requests == s.requests[k..] + come
  {
    hide Fresh, Find, FindKey, Reserved, Taken, TakenSize, Rest, Requeued, Judge, Need, RequestLength, CancelLog, ClientKind, Without;
    var q := Next(s, t, a).requests;
    if a.Accept? && s.server && s.requests != [] {
      k, come := 1, [];
    } else if a.CancelAll? {
      k, come := |s.requests|, [];
    } else if a.Take? && a.pool && s.received == [] {
      k, come := 0, [Item(a.addr, s.threads[t].irp, NoMemory, false, 0)];
    } else {
      k, come := 0, [];
      assert q == s.requests;
    }
  }

  // Exchanges wait in line: after any run those that waited before and still do are the last
  // of them, in their order, and those that have come since stand behind.
  lemma {:induction false} ExchangesWaitInLine(s: State, run: seq<Event>) returns (k: nat, come: seq<Item>)
    requires Possible(s, run)
    ensures k <= |s.requests| && After(s, run).requests == s.requests[k..] + come
    decreases run
  {
    hide Enabled, Next;
    if run == [] {
      k, come := 0, [];
    } else {
      var s1 := Next(s, run[0].t, run[0].a);
      var gone, arrived := RequestsStep(s, run[0].t, run[0].a);
      k, come := ExchangesWaitInLine(s1, run[1..]);
      k, come := InLine(s.requests, gone, arrived, k, come);
    }
  }

  lemma InLine(q: seq<Item>, gone: nat, arrived: seq<Item>, i: nat, later: seq<Item>) returns (k: nat, come: seq<Item>)
    requires gone <= |q| && i <= |q[gone..] + arrived|
    ensures k <= |q| && q[k..] + come == (q[gone..] + arrived)[i..] + later
  {
    if i <= |q| - gone {
      k, come := gone + i, arrived + later;
    } else {
      k, come := |q|, arrived[i - (|q| - gone)..] + later;
    }
  }

  // The driver refuses the request that a thread is to transfer.
  predicate Refuses(s: State, t: nat, a: Action) {
    a.Transfer? && t < |s.threads| && s.threads[t].Sending? && ClientKind(s.threads[t].client.irp.call)
    && s.threads[t].server.size < Need(s.threads[t].client.irp.call)
  }

  // With any number of exchanges, and disconnects, the second claim fails in one way: a
  // request is put back because it does not fit while another exchange waits.
  predicate Crosses(s: State, t: nat, a: Action) {
    Refuses(s, t, a) && s.requests != []
  }

  lemma BothStep(s: State, t: nat, a: Action)
    requires Enabled(s, t, a) && NotBoth(s)
    ensures !NotBoth(Next(s, t, a)) <==> Crosses(s, t, a)
  {
    hide Fresh, Find, FindKey, Reserved, Taken, TakenSize, Rest, Requeued, Judge, Need, RequestLength, CancelLog, ClientKind;
    if a.Transfer? {
      TransferWaits(s, t, a.mapOk);
    }
  }

  lemma TransferWaits(s: State, t: nat, mapOk: bool)
    requires Enabled(s, t, Transfer(mapOk))
    ensures var s' := DoTransfer(s, t, mapOk);
            && s'.requests == s.requests
            && (if Refuses(s, t, Transfer(mapOk)) then s'.received != [] else s'.received == s.received)
  {
    hide Fresh, Need, RequestLength, ClientKind;
  }

  // Both sides wait, and go on waiting to the end of a run.
  predicate BothThroughout(s: State, run: seq<Event>)
    requires Possible(s, run)
    decreases run
  {
    !NotBoth(s) && (run == [] || BothThroughout(Next(s, run[0].t, run[0].a), run[1..]))
  }

  // A request is put back while an exchange waits, and from there on neither queue empties.
  predicate CrossedInRun(s: State, run: seq<Event>)
    requires Possible(s, run)
    decreases run
  {
    run != [] &&
    var s1 := Next(s, run[0].t, run[0].a);
    (Crosses(s, run[0].t, run[0].a) && BothThroughout(s1, run[1..])) || CrossedInRun(s1, run[1..])
  }

  lemma {:induction false} BothWaitExactly(s: State, run: seq<Event>)
    requires Possible(s, run)
    ensures !NotBoth(After(s, run)) <==> CrossedInRun(s, run) || BothThroughout(s, run)
    decreases run
  {
    hide Enabled, Next, Crosses, NotBoth;
    if run != [] {
      if NotBoth(s) {
        BothStep(s, run[0].t, run[0].a);
      }
      BothAtFirst(Next(s, run[0].t, run[0].a), run[1..]);
      BothWaitExactly(Next(s, run[0].t, run[0].a), run[1..]);
    }
  }

  lemma BothAtFirst(s: State, run: seq<Event>)
    requires Possible(s, run)
    ensures BothThroughout(s, run) ==> !NotBoth(s)
  {
  }

  // After any run, a client request and an exchange both wait if and only if a request was
  // put back while an exchange waited and neither queue has been empty since.
  lemma BothWait(n: nat, run: seq<Event>)
    requires Possible(Init(n), run)
    ensures var s := After(Init(n), run);
            s.received != [] && s.requests != [] <==> CrossedInRun(Init(n), run)
  {
    BothWaitExactly(Init(n), run);
    BothAtFirst(Init(n), run);
  }

  // So it does with two exchanges outstanding, one of which is refused a request that does
  // not fit while the other already waits.
  lemma TwoExchangesCanWaitWithARequest() returns (run: seq<Event>)
    ensures Possible(Init(2), run)
    ensures var s := After(Init(2), run); s.received != [] && s.requests != [] && s.threads == [Idle, Idle]
  {
    run := CrossedFrom(0);
    assert Init(2).threads == [Idle, Idle];
    assert CrossedStage(0) == Init(2);
  }

  const FIRST: Irp := Irp(1, Exchange(HEADER_SIZE, []))
  const SECOND: Irp := Irp(2, Exchange(HEADER_SIZE, []))
  const CLIENT: Item := Item(1, Irp(3, Read(0, 1)), NoMemory, false, 0)
  const NONE: Response := Response(ReqNull, 0, Same(0), [])

  function CrossedEvent(k: nat): Event {
    match k
    case 0 => Event(0, ClientCall(CLIENT.irp, 1, true))
    case 1 => Event(0, Accept)
    case 2 => Event(0, ExchangeCall(FIRST, true))
    case 3 => Event(0, ReadTag(0))
    case 4 => Event(0, Respond(NONE, true))
    case 5 => Event(0, Take(2, true))
    case 6 => Event(1, ExchangeCall(SECOND, true))
    case 7 => Event(1, ReadTag(0))
    case 8 => Event(1, Respond(NONE, true))
    case 9 => Event(1, Take(3, true))
    case _ => Event(0, Transfer(true))
  }

  // The thread that works on the exchange irp, j steps after its call.
  function ExchangeHand(irp: Irp, j: nat): Pc {
    match j
    case 0 => Idle
    case 1 => Tagged(irp, NoMemory, HEADER_SIZE)
    case 2 => Responding(irp, NoMemory, HEADER_SIZE, None)
    case _ => Taking(irp, NoMemory, HEADER_SIZE)
  }

  function CrossedStage(k: nat): State {
    var first := if k == 0 || k >= 11 then Idle
                 else if k == 1 then Accepting(CLIENT)
                 else if k < 6 then ExchangeHand(FIRST, k - 2)
                 else Sending(CLIENT, Item(2, FIRST, NoMemory, true, HEADER_SIZE));
    var second := if 6 <= k < 10 then ExchangeHand(SECOND, k - 6) else Idle;
    State(true,
          if 2 <= k < 6 || k >= 11 then [CLIENT] else [], [],
          if k >= 10 then [Item(3, SECOND, NoMemory, false, 0)] else [], [],
          [first, second],
          if k >= 11 then [Fail(FIRST, TooSmall)] else [],
          (if k >= 1 then {CLIENT.irp} else {}) + (if k >= 3 then {FIRST} else {}) + (if k >= 7 then {SECOND} else {}),
          if k >= 2 then [CLIENT.irp] else [], [])
  }

  predicate CrossedStep(k: nat) {
    var e, s := CrossedEvent(k), CrossedStage(k);
    Enabled(s, e.t, e.a) && Next(s, e.t, e.a) == CrossedStage(k + 1)
  }

  lemma AddressesUsed(k: nat, addr: nat)
    requires k < 11 && addr >= 1
    requires if k < 1 then true else if k < 6 then addr > 1 else addr > 2
    ensures k < 10 ==> Fresh(CrossedStage(k), addr)
  {
    var s, x := CrossedStage(k), At(addr);
    assert HandsCount(s.threads, x) == HandCount(s.threads[0], x) + HandCount(s.threads[1], x) by {
      assert HandsCount(s.threads[1..], x) == HandCount(s.threads[1], x) + HandsCount(s.threads[1..][1..], x);
      assert s.threads[1..][1..] == [];
    }
    if s.received != [] {
      assert s.received[1..] == [];
    }
  }

  lemma CrossedCalls(k: nat)
    requires k < 3
    ensures CrossedStep(k)
  {
    hide Fresh, Find, FindKey;
    AddressesUsed(0, 1);
  }

  lemma CrossedSecond()
    ensures CrossedStep(6)
  {
    hide Fresh, Find, FindKey;
  }

  lemma CrossedTags(k: nat)
    requires k == 3 || k == 4 || k == 7 || k == 8
    ensures CrossedStep(k)
  {
    hide Fresh, Find, FindKey;
  }

  lemma CrossedTakes(k: nat)
    requires k == 5 || k == 9
    ensures CrossedStep(k)
  {
    hide Fresh, Find, FindKey;
    AddressesUsed(5, 2);
    AddressesUsed(9, 3);
  }

  lemma CrossedTransfer()
    ensures CrossedStep(10)
  {
    hide Fresh, Find, FindKey;
  }

  lemma CrossedOne(k: nat)
    requires k < 11
    ensures CrossedStep(k)
  {
    hide CrossedStep;
    if k < 3 {
      CrossedCalls(k);
    } else if k == 6 {
      CrossedSecond();
    } else if k == 5 || k == 9 {
      CrossedTakes(k);
    } else if k == 10 {
      CrossedTransfer();
    } else {
      CrossedTags(k);
    }
  }

  lemma {:induction false} CrossedFrom(k: nat) returns (run: seq<Event>)
    requires k <= 11
    ensures Possible(CrossedStage(k), run) && After(CrossedStage(k), run) == CrossedStage(11)
    decreases 11 - k
  {
    hide Enabled, Next, CrossedStage, CrossedEvent;
    run := [];
    if k < 11 {
      CrossedOne(k);
      var rest := CrossedFrom(k + 1);
      run := [CrossedEvent(k)] + rest;
      assert run[1..] == rest;
    }
  }
}
